/**
 The JSON text through which a request reaches the JavaScript handler.
 */
module V8Bridge {
  import opened Wrappers
  import opened MapOrders
  import opened Headers
  import opened Escaping
  import opened Json
  import Base64

  datatype NanoRequest = NanoRequest(method_: string, url: string, body: Option<seq<byte>>)

  /** The (name, value) pairs that `for_each` visits when the map is walked in this order. */
  function Visited(order: seq<string>, headers: map<string, seq<string>>): seq<(string, string)>
    requires forall name :: name in order ==> name in headers
  {
    seq(|order|, i requires 0 <= i < |order| => (order[i], ForEachValue(order[i], headers[order[i]])))
  }

  function StringMembers(pairs: seq<(string, string)>): seq<(string, Json)> {
    seq(|pairs|, i requires 0 <= i < |pairs| => (pairs[i].0, JString(pairs[i].1)))
  }

  function BodyValue(body: Option<seq<byte>>): Json {
    match body case Some(bs) => JString(Base64.Encode(bs)) case None => JNull
  }

  /** The JSON value a request stands for. */
  function RequestValue(r: NanoRequest, pairs: seq<(string, string)>): Json {
    JObject([
      ("method", JString(r.method_)),
      ("url", JString(r.url)),
      ("headers", JObject(StringMembers(pairs))),
      ("body", BodyValue(r.body)),
      ("bodyUsed", JBool(r.body.Some?))])
  }

  /** The serializer: pushes onto one text, with a flag for the first header. */
  method SerializeRequestToJson(r: NanoRequest, headers: NanoHeaders, order: seq<string>) returns (json: string)
    requires headers.Valid() && Enumerates(order, headers.headers)
    ensures json == Print(RequestValue(r, Visited(order, headers.headers)))
  {
    hide Print, EscapeJson, PrintMember;
    ghost var pairs := Visited(order, headers.headers);
    ghost var members := StringMembers(pairs);
    json := "{";
    FieldText(json, "method", "\"method\":\"", r.method_);
    json := json + "\"method\":\"" + EscapeJson(r.method_) + "\",";
    FieldText(json, "url", "\"url\":\"", r.url);
    json := json + "\"url\":\"" + EscapeJson(r.url) + "\",";
    ghost var beforeHeaders := json;
    json := json + "\"headers\":{";
    ghost var before := json;
    var first := true;
    for i := 0 to |order|
      invariant first == (i == 0)
      invariant json == before + PrintMembers(members[..i])
    {
      var name, values := order[i], headers.headers[order[i]];
      var value := if name == SET_COOKIE then (if values == [] then "" else values[0]) else Join(values, ", ");
      NextHeader(members, i, name, value);
      var separator := if first then "" else ",";
      var header := "\"" + EscapeJson(name) + "\":\"" + EscapeJson(value) + "\"";
      Associate(before, PrintMembers(members[..i]), separator, header);
      json := json + separator;
      first := false;
      json := json + header;
    }
    assert members[..|order|] == members;
    json := json + "},";
    HeadersText(beforeHeaders, members);
    var body := BodyText(r.body);
    json := json + body;
    json := json + "}";
    RequestText(r, pairs);
  }

  method BodyText(body: Option<seq<byte>>) returns (text: string)
    ensures text == PrintMember(("body", BodyValue(body))) + "," + PrintMember(("bodyUsed", JBool(body.Some?)))
  {
    hide PrintMember, EscapeJson;
    match body {
      case Some(bs) =>
        var base64 := Base64.Base64Encode(bs);
        text := "\"body\":\"" + base64 + "\",\"bodyUsed\":true";
        BodyMember(bs);
        NullAndUsed(true);
        Base64Text(base64);
      case None =>
        text := "\"body\":null,\"bodyUsed\":false";
        NullAndUsed(false);
    }
  }

  // The text of the printed value, in the pieces that the serializer pushes.

  lemma NextHeader(members: seq<(string, Json)>, i: nat, name: string, value: string)
    requires i < |members| && members[i] == (name, JString(value))
    ensures PrintMembers(members[..i + 1]) ==
            PrintMembers(members[..i]) + (if i == 0 then "" else ",") +
            ("\"" + EscapeJson(name) + "\":\"" + EscapeJson(value) + "\"")
  {
    assert members[..i + 1] == members[..i] + [members[i]];
    MembersSnoc(members[..i], members[i]);
    MemberText(name, value);
  }

  /** A text without quotes, backslashes, line breaks and tabs is not changed by escaping. */
  lemma PlainText(s: string)
    requires '\\' !in s && '"' !in s && '\n' !in s && '\r' !in s && '\t' !in s
    ensures EscapeJson(s) == s
  {
    ReplaceAbsent(s, '\\', ['\\', '\\']);
    ReplaceAbsent(s, '"', ['\\', '"']);
    ReplaceAbsent(s, '\n', ['\\', 'n']);
    ReplaceAbsent(s, '\r', ['\\', 'r']);
    ReplaceAbsent(s, '\t', ['\\', 't']);
  }

  lemma Associate(a: string, b: string, c: string, d: string)
    ensures a + b + c + d == a + (b + c + d)
  {
  }

  lemma FieldText(before: string, key: string, prefix: string, value: string)
    requires '\\' !in key && '"' !in key && '\n' !in key && '\r' !in key && '\t' !in key
    requires prefix == "\"" + key + "\":\""
    ensures before + prefix + EscapeJson(value) + "\"," == before + PrintMember((key, JString(value))) + ","
  {
    PlainText(key);
    MemberText(key, value);
    hide EscapeJson;
    assert before + prefix + EscapeJson(value) + "\"," == before + (prefix + EscapeJson(value) + "\"") + ",";
  }

  lemma KeyText(key: string, v: Json)
    requires '\\' !in key && '"' !in key && '\n' !in key && '\r' !in key && '\t' !in key
    ensures PrintMember((key, v)) == "\"" + key + "\":" + Print(v)
  {
    PlainText(key);
    hide EscapeJson, Print;
    assert "\"" + key + "\"" + ":" == "\"" + key + "\":";
  }

  lemma BodyMember(bs: seq<byte>)
    ensures PrintMember(("body", BodyValue(Some(bs)))) == "\"body\":" + ("\"" + Base64.Encode(bs) + "\"")
  {
    Base64Unescaped(bs);
    hide EscapeJson;
    KeyText("body", JString(Base64.Encode(bs)));
    assert "\"" + "body" + "\":" == "\"body\":";
  }

  lemma NullAndUsed(used: bool)
    ensures PrintMember(("body", BodyValue(None))) == "\"body\":null"
    ensures PrintMember(("bodyUsed", JBool(used))) == "\"bodyUsed\":" + if used then "true" else "false"
  {
    hide EscapeJson;
    KeyText("body", JNull);
    KeyText("bodyUsed", JBool(used));
    assert "\"" + "bodyUsed" + "\":" == "\"bodyUsed\":";
  }

  lemma Base64Text(base64: string)
    ensures "\"body\":\"" + base64 + "\",\"bodyUsed\":true" ==
            "\"body\":" + ("\"" + base64 + "\"") + "," + "\"bodyUsed\":true"
  {
  }

  lemma HeadersText(before: string, members: seq<(string, Json)>)
    ensures before + "\"headers\":{" + PrintMembers(members) + "}," ==
            before + PrintMember(("headers", JObject(members))) + ","
  {
    hide EscapeJson, PrintMembers, PrintMember;
    KeyText("headers", JObject(members));
    Braces(before, PrintMembers(members));
    assert "\"" + "headers" + "\":" == "\"headers\":";
  }

  lemma Braces(before: string, inner: string)
    ensures before + "\"headers\":{" + inner + "}," == before + ("\"headers\":" + ("{" + inner + "}")) + ","
  {
  }

  lemma RequestText(r: NanoRequest, pairs: seq<(string, string)>)
    ensures Print(RequestValue(r, pairs)) ==
      "{" + PrintMember(("method", JString(r.method_))) + "," + PrintMember(("url", JString(r.url))) + "," +
      PrintMember(("headers", JObject(StringMembers(pairs)))) + "," +
      (PrintMember(("body", BodyValue(r.body))) + "," + PrintMember(("bodyUsed", JBool(r.body.Some?)))) + "}"
  {
    hide PrintMember;
    var a, b := PrintMember(("method", JString(r.method_))), PrintMember(("url", JString(r.url)));
    var c := PrintMember(("headers", JObject(StringMembers(pairs))));
    var d, e := PrintMember(("body", BodyValue(r.body))), PrintMember(("bodyUsed", JBool(r.body.Some?)));
    PrintFive(("method", JString(r.method_)), ("url", JString(r.url)), ("headers", JObject(StringMembers(pairs))),
              ("body", BodyValue(r.body)), ("bodyUsed", JBool(r.body.Some?)));
    Flatten(a, b, c, d + "," + e);
  }

  lemma Flatten(a: string, b: string, c: string, d: string)
    ensures "{" + (a + "," + (b + "," + (c + "," + d))) + "}" == "{" + a + "," + b + "," + c + "," + d + "}"
  {
  }

  lemma MemberText(name: string, value: string)
    ensures PrintMember((name, JString(value))) == "\"" + EscapeJson(name) + "\":\"" + EscapeJson(value) + "\""
  {
    hide EscapeJson;
    assert "\"" + EscapeJson(name) + "\"" + ":" + ("\"" + EscapeJson(value) + "\"") ==
           "\"" + EscapeJson(name) + "\":\"" + EscapeJson(value) + "\"";
  }

  lemma {:induction false} MembersSnoc(ms: seq<(string, Json)>, m: (string, Json))
    ensures PrintMembers(ms + [m]) == PrintMembers(ms) + (if ms == [] then "" else ",") + PrintMember(m)
  {
    hide PrintMember;
    if |ms| == 0 {
      assert ms + [m] == [m];
    } else {
      MembersSnoc(ms[1..], m);
      assert (ms + [m])[1..] == ms[1..] + [m];
      assert (ms + [m])[0] == ms[0];
      if |ms| > 1 {
        assert PrintMember(ms[0]) + "," + (PrintMembers(ms[1..]) + "," + PrintMember(m)) ==
               PrintMember(ms[0]) + "," + PrintMembers(ms[1..]) + "," + PrintMember(m);
      }
    }
  }

  /** Base64 text needs no escaping. */
  lemma Base64Unescaped(bs: seq<byte>)
    ensures EscapeJson(Base64.Encode(bs)) == Base64.Encode(bs)
  {
    Base64.EncodeSymbols(bs);
    PlainText(Base64.Encode(bs));
  }

  lemma PrintFive(a: (string, Json), b: (string, Json), c: (string, Json), d: (string, Json), e: (string, Json))
    ensures PrintMembers([a, b, c, d, e]) ==
      PrintMember(a) + "," + (PrintMember(b) + "," + (PrintMember(c) + "," + (PrintMember(d) + "," + PrintMember(e))))
  {
    hide PrintMember;
    assert [a, b, c, d, e][1..] == [b, c, d, e];
    assert [b, c, d, e][1..] == [c, d, e];
    assert [c, d, e][1..] == [d, e];
    assert [d, e][1..] == [e];
    assert PrintMembers([e]) == PrintMember(e);
    assert PrintMembers([d, e]) == PrintMember(d) + "," + PrintMembers([e]);
    assert PrintMembers([c, d, e]) == PrintMember(c) + "," + PrintMembers([d, e]);
    assert PrintMembers([b, c, d, e]) == PrintMember(b) + "," + PrintMembers([c, d, e]);
  }

  // Reading the text back.

  /** The header pairs of an object whose members are all strings. */
  function ReadPairs(ms: seq<(string, Json)>): Option<seq<(string, string)>> {
    if ms == [] then Some([]) else
      match (ms[0].1, ReadPairs(ms[1..]))
      case (JString(value), Some(pairs)) => Some([(ms[0].0, value)] + pairs)
      case _ => None
  }

  function ReadBody(body: Json, used: Json): Option<Option<seq<byte>>> {
    match (body, used)
    case (JNull, JBool(false)) => Some(None)
    case (JString(text), JBool(true)) =>
      (match Base64.Decode(text) case Some(bs) => Some(Some(bs)) case None => None)
    case _ => None
  }

  /** The request a complete JSON text stands for. */
  function ReadRequest(json: string): Option<(NanoRequest, seq<(string, string)>)> {
    match ReadValue(json)
    case Some((JObject(ms), "")) =>
      if |ms| == 5 && ms[0].0 == "method" && ms[1].0 == "url" && ms[2].0 == "headers" && ms[3].0 == "body" &&
         ms[4].0 == "bodyUsed" && ms[0].1.JString? && ms[1].1.JString? && ms[2].1.JObject?
      then match (ReadPairs(ms[2].1.members), ReadBody(ms[3].1, ms[4].1))
           case (Some(pairs), Some(body)) => Some((NanoRequest(ms[0].1.text, ms[1].1.text, body), pairs))
           case _ => None
      else None
    case _ => None
  }

  predicate CleanRequest(r: NanoRequest, pairs: seq<(string, string)>) {
    Clean(r.method_) && Clean(r.url) && CleanPairs(pairs)
  }

  lemma {:induction false} PairsReadBack(pairs: seq<(string, string)>)
    ensures ReadPairs(StringMembers(pairs)) == Some(pairs)
  {
    if pairs != [] {
      PairsReadBack(pairs[1..]);
      assert StringMembers(pairs)[1..] == StringMembers(pairs[1..]);
      assert [pairs[0]] + pairs[1..] == pairs;
    }
  }

  predicate CleanPairs(pairs: seq<(string, string)>) {
    forall i :: 0 <= i < |pairs| ==> Clean(pairs[i].0) && Clean(pairs[i].1)
  }

  lemma {:induction false} PairsClean(pairs: seq<(string, string)>)
    ensures CleanMembers(StringMembers(pairs)) <==> CleanPairs(pairs)
  {
    hide Clean;
    if pairs != [] {
      PairsClean(pairs[1..]);
      assert StringMembers(pairs)[1..] == StringMembers(pairs[1..]);
      var ms := StringMembers(pairs);
      assert CleanMember(ms[0]) <==> Clean(pairs[0].0) && Clean(pairs[0].1);
      assert CleanMembers(ms) <==> CleanMember(ms[0]) && CleanMembers(ms[1..]);
      assert CleanPairs(pairs) <==> (Clean(pairs[0].0) && Clean(pairs[0].1)) && CleanPairs(pairs[1..]) by {
        forall i | 0 < i < |pairs| ensures pairs[i] == pairs[1..][i - 1] {}
      }
    }
  }

  lemma Base64Clean(bs: seq<byte>)
    ensures Clean(Base64.Encode(bs))
  {
    hide Base64.Encode;
    Base64.EncodeSymbols(bs);
    var text := Base64.Encode(bs);
    forall i | 0 <= i < |text| ensures Base64.Value(text[i]).Some? || text[i] == '=' {
      assert text[i] in text;
    }
  }

  lemma CleanFive(a: (string, Json), b: (string, Json), c: (string, Json), d: (string, Json), e: (string, Json))
    ensures CleanMembers([a, b, c, d, e]) <==>
      CleanMember(a) && CleanMember(b) && CleanMember(c) && CleanMember(d) && CleanMember(e)
  {
    hide CleanMember;
    assert [a, b, c, d, e][1..] == [b, c, d, e];
    assert [b, c, d, e][1..] == [c, d, e];
    assert [c, d, e][1..] == [d, e];
    assert [d, e][1..] == [e];
    assert CleanMembers([e][1..]);
    assert CleanMembers([d, e]) <==> CleanMember(d) && CleanMember(e);
    assert CleanMembers([c, d, e]) <==> CleanMember(c) && CleanMembers([d, e]);
    assert CleanMembers([b, c, d, e]) <==> CleanMember(b) && CleanMembers([c, d, e]);
  }

  lemma KeysClean()
    ensures Clean("method") && Clean("url") && Clean("headers") && Clean("body") && Clean("bodyUsed")
  {
  }

  lemma RequestValueClean(r: NanoRequest, pairs: seq<(string, string)>)
    ensures CleanValue(RequestValue(r, pairs)) <==> CleanRequest(r, pairs)
  {
    PairsClean(pairs);
    KeysClean();
    hide Clean;
    CleanFive(("method", JString(r.method_)), ("url", JString(r.url)), ("headers", JObject(StringMembers(pairs))),
              ("body", BodyValue(r.body)), ("bodyUsed", JBool(r.body.Some?)));
    assert CleanMember(("headers", JObject(StringMembers(pairs)))) <==> CleanMembers(StringMembers(pairs));
    assert CleanMember(("method", JString(r.method_))) <==> Clean(r.method_);
    assert CleanMember(("url", JString(r.url))) <==> Clean(r.url);
    if r.body.Some? { Base64Clean(r.body.value); }
    assert CleanMember(("body", BodyValue(r.body)));
  }

  /** The serialized text is a JSON text exactly when the method, the URL and every header name and value
      hold no control character other than line feed, carriage return and tab; reading it then gives
      back the method, the URL, every header pair in order, and the body bytes. */
  lemma RequestRoundTrip(r: NanoRequest, pairs: seq<(string, string)>)
    ensures ReadRequest(Print(RequestValue(r, pairs))) == if CleanRequest(r, pairs) then Some((r, pairs)) else None
    ensures ReadValue(Print(RequestValue(r, pairs))).Some? <==> CleanRequest(r, pairs)
  {
    RoundTrip(RequestValue(r, pairs));
    RequestValueClean(r, pairs);
    PairsReadBack(pairs);
    if r.body.Some? { Base64.DecodeEncode(r.body.value); }
  }

  /** Whatever order the header map is walked in, the pairs read back have distinct names and carry, for
      every header, exactly the text that `for_each` passes on: the first cookie, or all values with commas. */
  lemma PairsAreTheHeaders(order: seq<string>, headers: map<string, seq<string>>)
    requires Enumerates(order, headers)
    ensures var pairs := Visited(order, headers);
      && (forall i, j :: 0 <= i < j < |pairs| ==> pairs[i].0 != pairs[j].0)
      && (forall name :: name in headers <==> exists i :: 0 <= i < |pairs| && pairs[i].0 == name)
      && (forall i :: 0 <= i < |pairs| ==> pairs[i].1 == ForEachValue(pairs[i].0, headers[pairs[i].0]))
      && (forall i :: 0 <= i < |pairs| ==> Carries(pairs[i].0, headers[pairs[i].0], pairs[i].1))
  {
    var pairs := Visited(order, headers);
    forall i | 0 <= i < |pairs| ensures Carries(pairs[i].0, headers[pairs[i].0], pairs[i].1) {
      ForEachCarries(order[i], headers[order[i]]);
    }
    forall name | name in headers ensures exists i :: 0 <= i < |pairs| && pairs[i].0 == name {
      assert name in order;
      var i :| 0 <= i < |order| && order[i] == name;
      assert pairs[i].0 == name;
    }
  }
}
