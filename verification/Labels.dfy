/**
 Prometheus label sets as the exporter prints them, and a reader of the text exposition format that
 recovers them.
 */
module Labels {
  import opened Wrappers
  import opened Escaping

  type Pair = (string, string)

  const RULES: seq<(char, string)> := [('\\', ['\\', '\\']), ('"', ['\\', '"']), ('\n', ['\\', 'n'])]

  function EscapeValue(s: string): string {
    Replace(Replace(Replace(s, '\\', ['\\', '\\']), '"', ['\\', '"']), '\n', ['\\', 'n'])
  }

  lemma EscapeIsOnePass(s: string)
    ensures EscapeValue(s) == Escape(s, RULES)
  {
    var s1 := Replace(s, '\\', ['\\', '\\']);
    var s2 := Replace(s1, '"', ['\\', '"']);
    var s3 := Replace(s2, '\n', ['\\', 'n']);
    assert ReplaceAll(s3, RULES[1..][1..][1..]) == s3;
    assert ReplaceAll(s2, RULES[1..][1..]) == s3;
    assert ReplaceAll(s1, RULES[1..]) == s3;
    ChainIsOnePass(s, RULES);
  }

  /** Names and values paired up; what the longer list has beyond the shorter one is ignored. */
  function Zip(names: seq<string>, values: seq<string>): seq<Pair> {
    if names == [] || values == [] then [] else [(names[0], values[0])] + Zip(names[1..], values[1..])
  }

  function PairText(p: Pair): string {
    p.0 + "=\"" + EscapeValue(p.1) + "\""
  }

  function PairsText(ps: seq<Pair>): string {
    if ps == [] then ""
    else if |ps| == 1 then PairText(ps[0])
    else PairText(ps[0]) + "," + PairsText(ps[1..])
  }

  /** A label set: nothing at all when it is empty. */
  function LabelText(ps: seq<Pair>): string {
    if ps == [] then "" else "{" + PairsText(ps) + "}"
  }

  lemma {:induction false} PairsSnoc(ps: seq<Pair>, p: Pair)
    ensures PairsText(ps + [p]) == PairsText(ps) + (if ps == [] then "" else ",") + PairText(p)
  {
    hide PairText;
    if ps == [] {
      assert ps + [p] == [p];
    } else {
      PairsSnoc(ps[1..], p);
      assert (ps + [p])[1..] == ps[1..] + [p];
      assert (ps + [p])[0] == ps[0];
      if |ps| > 1 {
        Regroup(PairText(ps[0]), PairsText(ps[1..]), PairText(p));
      }
    }
  }

  lemma Regroup(a: string, b: string, c: string)
    ensures a + "," + (b + "," + c) == a + "," + b + "," + c
  {
  }

  lemma {:induction false} ZipAt(names: seq<string>, values: seq<string>)
    ensures |Zip(names, values)| == if |names| <= |values| then |names| else |values|
    ensures forall i :: 0 <= i < |Zip(names, values)| ==> Zip(names, values)[i] == (names[i], values[i])
  {
    if names != [] && values != [] {
      ZipAt(names[1..], values[1..]);
    }
  }

  /** The label printer: a loop over the zipped lists with a comma before every pair but the first. */
  method FormatLabels(names: seq<string>, values: seq<string>) returns (result: string)
    ensures result == LabelText(Zip(names, values))
  {
    ZipAt(names, values);
    if names == [] || values == [] {
      return "";
    }
    hide EscapeValue;
    ghost var ps := Zip(names, values);
    result := "{";
    var i := 0;
    while i < |names| && i < |values|
      invariant i <= |ps|
      invariant result == "{" + PairsText(ps[..i])
    {
      assert ps[..i + 1] == ps[..i] + [ps[i]];
      PairsSnoc(ps[..i], ps[i]);
      if i > 0 {
        result := result + ",";
      }
      result := result + (names[i] + "=\"" + EscapeValue(values[i]) + "\"");
      i := i + 1;
    }
    assert ps[..i] == ps;
    result := result + "}";
  }

  /** The label set of one histogram bucket: `le` is spliced in before the closing brace. */
  method BucketLabels(base: string, bucketLabel: string, ghost ps: seq<Pair>) returns (result: string)
    requires base == LabelText(ps)
    requires EscapeValue(bucketLabel) == bucketLabel
    ensures result == LabelText(ps + [("le", bucketLabel)])
  {
    PairsSnoc(ps, ("le", bucketLabel));
    hide EscapeValue;
    if base == "" {
      result := "{le=\"" + bucketLabel + "\"}";
      assert ps == [];
      assert result == "{" + ("le" + "=\"" + bucketLabel + "\"") + "}";
    } else {
      var withoutClose := base[..|base| - 1];
      var comma := if |base| > 2 then "," else "";
      result := withoutClose + comma + "le=\"" + bucketLabel + "\"}";
      BaseIsLong(ps);
      assert withoutClose == "{" + PairsText(ps);
      assert result == "{" + (PairsText(ps) + "," + ("le" + "=\"" + bucketLabel + "\"")) + "}";
    }
  }

  lemma BaseIsLong(ps: seq<Pair>)
    requires ps != []
    ensures |LabelText(ps)| > 2
  {
  }

  /** Bucket bounds print without characters that need escaping. */
  lemma BoundPlain(bound: string)
    requires forall c :: c in bound ==> '0' <= c <= '9' || c in "+-.Inf"
    ensures EscapeValue(bound) == bound
  {
    ReplaceAbsent(bound, '\\', ['\\', '\\']);
    ReplaceAbsent(bound, '"', ['\\', '"']);
    ReplaceAbsent(bound, '\n', ['\\', 'n']);
  }

  // The reader.

  /** Label names are non-empty words that do not begin with a digit. */
  predicate IsName(s: string) {
    s != "" && !('0' <= s[0] <= '9') && forall i :: 0 <= i < |s| ==> WordChar(s[i])
  }

  /** The text up to the first `=`, and what follows it. */
  function ReadName(s: string): (r: Option<(string, string)>)
    ensures r.Some? ==> |r.value.1| < |s|
  {
    if s == "" then None
    else if s[0] == '=' then Some(("", s[1..]))
    else match ReadName(s[1..])
         case Some((name, rest)) => Some(([s[0]] + name, rest))
         case None => None
  }

  /** An escaped value up to its closing quote. */
  function ReadQuoted(s: string): (r: Option<(string, string)>)
    ensures r.Some? ==> |r.value.1| < |s|
  {
    if s == "" then None
    else if s[0] == '"' then Some(("", s[1..]))
    else if s[0] == '\n' then None
    else if s[0] == '\\' then
      if |s| < 2 then None
      else if s[1] == '\\' then Prepend(Some('\\'), ReadQuoted(s[2..]))
      else if s[1] == '"' then Prepend(Some('"'), ReadQuoted(s[2..]))
      else if s[1] == 'n' then Prepend(Some('\n'), ReadQuoted(s[2..]))
      else None
    else Prepend(Some(s[0]), ReadQuoted(s[1..]))
  }

  function ReadPair(s: string): (r: Option<(Pair, string)>)
    ensures r.Some? ==> |r.value.1| < |s| && IsName(r.value.0.0)
  {
    match ReadName(s)
    case None => None
    case Some((name, rest)) =>
      if !IsName(name) || rest == "" || rest[0] != '"' then None else
        match ReadQuoted(rest[1..])
        case Some((value, more)) => Some(((name, value), more))
        case None => None
  }

  predicate AllNames(ps: seq<Pair>) {
    forall i :: 0 <= i < |ps| ==> IsName(ps[i].0)
  }

  function ReadPairs(s: string): (r: Option<seq<Pair>>)
    ensures r.Some? ==> AllNames(r.value)
    decreases |s|
  {
    match ReadPair(s)
    case None => None
    case Some((p, rest)) =>
      if rest == "}" then Some([p])
      else if rest != "" && rest[0] == ',' then
        match ReadPairs(rest[1..])
        case Some(ps) => Some([p] + ps)
        case None => None
      else None
  }

  function ReadLabels(s: string): (r: Option<seq<Pair>>)
    ensures r.Some? ==> AllNames(r.value)
  {
    if s == "" then Some([])
    else if s[0] == '{' then ReadPairs(s[1..])
    else None
  }

  // Inverse.

  lemma EscapeCharForms(c: char)
    ensures EscapeChar(c, RULES) ==
      if c == '\\' then ['\\', '\\'] else if c == '"' then ['\\', '"'] else if c == '\n' then ['\\', 'n'] else [c]
  {
    var r1 := [('"', ['\\', '"']), ('\n', ['\\', 'n'])];
    var r2 := [('\n', ['\\', 'n'])];
    assert RULES[1..] == r1 && r1[1..] == r2 && r2[1..] == [];
    assert EscapeChar(c, r2) == if c == '\n' then ['\\', 'n'] else [c];
    assert EscapeChar(c, r1) == if c == '"' then ['\\', '"'] else EscapeChar(c, r2);
  }

  lemma {:induction false} QuotedRoundTrip(s: string, rest: string)
    ensures ReadQuoted(Escape(s, RULES) + "\"" + rest) == Some((s, rest))
  {
    if s == "" {
      assert Escape(s, RULES) + "\"" + rest == "\"" + rest;
    } else {
      var t := Escape(s[1..], RULES) + "\"" + rest;
      assert Escape(s, RULES) + "\"" + rest == EscapeChar(s[0], RULES) + t;
      QuotedRoundTrip(s[1..], rest);
      ReadsOne(s[0], t);
      assert [s[0]] + s[1..] == s;
    }
  }

  lemma ReadsOne(c: char, t: string)
    ensures ReadQuoted(EscapeChar(c, RULES) + t) == Prepend(Some(c), ReadQuoted(t))
  {
    EscapeCharForms(c);
    var s := EscapeChar(c, RULES) + t;
    if |EscapeChar(c, RULES)| == 2 {
      assert s[2..] == t;
    } else {
      assert s[1..] == t;
    }
  }

  lemma {:induction false} NameRoundTrip(name: string, rest: string)
    requires '=' !in name
    ensures ReadName(name + "=" + rest) == Some((name, rest))
  {
    if name == "" {
      assert name + "=" + rest == "=" + rest;
    } else {
      assert (name + "=" + rest)[1..] == name[1..] + "=" + rest;
      NameRoundTrip(name[1..], rest);
      assert [name[0]] + name[1..] == name;
    }
  }

  /** A printed pair reads back as itself when its name is a label name. */
  lemma PairRoundTrip(p: Pair, rest: string)
    requires IsName(p.0)
    ensures ReadPair(PairText(p) + rest) == Some((p, rest))
  {
    EscapeIsOnePass(p.1);
    var value := Escape(p.1, RULES) + "\"" + rest;
    assert PairText(p) + rest == p.0 + "=" + ("\"" + value);
    NameRoundTrip(p.0, "\"" + value);
    assert ("\"" + value)[1..] == value;
    QuotedRoundTrip(p.1, rest);
  }

  lemma ReadsPair(p: Pair, rest: string, s: string)
    requires IsName(p.0) && s == PairText(p) + rest
    ensures rest == "}" ==> ReadPairs(s) == Some([p])
    ensures rest != "" && rest[0] == ',' && ReadPairs(rest[1..]).Some? ==>
      ReadPairs(s) == Some([p] + ReadPairs(rest[1..]).value)
  {
    PairRoundTrip(p, rest);
    hide ReadPair, PairText;
  }

  lemma {:induction false} PairsRoundTrip(ps: seq<Pair>)
    requires ps != [] && AllNames(ps)
    ensures ReadPairs(PairsText(ps) + "}") == Some(ps)
  {
    hide ReadPairs, PairText, IsName;
    if |ps| == 1 {
      ReadsPair(ps[0], "}", PairsText(ps) + "}");
      assert ps == [ps[0]];
    } else {
      var rest := "," + (PairsText(ps[1..]) + "}");
      assert PairsText(ps) + "}" == PairText(ps[0]) + rest;
      assert rest[1..] == PairsText(ps[1..]) + "}";
      PairsRoundTrip(ps[1..]);
      ReadsPair(ps[0], rest, PairsText(ps) + "}");
      assert [ps[0]] + ps[1..] == ps;
    }
  }

  /** The reader recovers a printed label set exactly when all its names are label names; the values may
      be anything. */
  lemma LabelsRoundTrip(ps: seq<Pair>)
    ensures ReadLabels(LabelText(ps)) == Some(ps) <==> AllNames(ps)
  {
    if AllNames(ps) {
      LabelsReadBack(ps);
    }
  }

  lemma LabelsReadBack(ps: seq<Pair>)
    requires AllNames(ps)
    ensures ReadLabels(LabelText(ps)) == Some(ps)
  {
    hide PairsText, ReadPairs;
    if ps != [] {
      PairsRoundTrip(ps);
      assert LabelText(ps)[1..] == PairsText(ps) + "}";
    }
  }

  /** Distinct value vectors of one metric never print the same series. */
  lemma SeriesDiffer(names: seq<string>, values: seq<string>, values': seq<string>)
    requires forall i :: 0 <= i < |names| ==> IsName(names[i])
    requires |values| == |names| == |values'|
    requires LabelText(Zip(names, values)) == LabelText(Zip(names, values'))
    ensures values == values'
  {
    ZipAt(names, values);
    ZipAt(names, values');
    LabelsRoundTrip(Zip(names, values));
    LabelsRoundTrip(Zip(names, values'));
    assert forall i :: 0 <= i < |names| ==> Zip(names, values)[i] == Zip(names, values')[i];
  }
}
