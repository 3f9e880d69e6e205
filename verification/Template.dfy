/**
 Environment references in configuration text: the expander, and the grammar it accepts.
 An environment is a map; variables whose value is not Unicode count as unset.
 */
module Template {
  import opened Wrappers

  type Env = map<string, string>

  datatype Ref = Ref(name: string, fallback: Option<string>)

  /** Literals and references in turn. */
  datatype Template = Literal(text: string) | Before(text: string, ref: Ref, rest: Template)

  datatype ExpandError = UnclosedReference | UnclosedDefault | BadSeparator | BadCharacter(c: char)

  // The grammar.

  predicate IsWord(s: string) {
    forall i :: 0 <= i < |s| ==> WordChar(s[i])
  }

  /** No reference begins inside the text. */
  predicate Plain(s: string) {
    forall i :: 0 <= i < |s| - 1 ==> !(s[i] == '$' && s[i + 1] == '{')
  }

  predicate WellFormedRef(r: Ref) {
    IsWord(r.name) && (r.fallback.Some? ==> '}' !in r.fallback.value)
  }

  predicate WellFormed(t: Template) {
    match t
    case Literal(s) => Plain(s)
    case Before(s, r, rest) => Plain(s) && WellFormedRef(r) && WellFormed(rest)
  }

  function FallbackText(fallback: Option<string>): string {
    match fallback
    case None => "}"
    case Some(d) => ":-" + d + "}"
  }

  /** A reference after its opening `${`. */
  function RefTail(r: Ref): string {
    r.name + FallbackText(r.fallback)
  }

  function Print(t: Template): string {
    match t
    case Literal(s) => s
    case Before(s, r, rest) => s + "${" + RefTail(r) + Print(rest)
  }

  // The meaning.

  function Lookup(r: Ref, env: Env): string {
    if r.name in env then env[r.name]
    else match r.fallback case Some(d) => d case None => ""
  }

  function Eval(t: Template, env: Env): string {
    match t
    case Literal(s) => s
    case Before(s, r, rest) => s + Lookup(r, env) + Eval(rest, env)
  }

  // What the expander computes, on the unread text.

  function ReadDefault(s: string, name: string, default: string): (r: Result<(Ref, string), ExpandError>)
    ensures r.Ok? ==> |r.value.1| < |s|
  {
    if s == "" then Err(UnclosedDefault)
    else if s[0] == '}' then Ok((Ref(name, Some(default)), s[1..]))
    else ReadDefault(s[1..], name, default + [s[0]])
  }

  function ReadRef(s: string, name: string): (r: Result<(Ref, string), ExpandError>)
    ensures r.Ok? ==> |r.value.1| < |s|
  {
    if s == "" then Err(UnclosedReference)
    else if s[0] == '}' then Ok((Ref(name, None), s[1..]))
    else if s[0] == ':' then
      if |s| >= 2 && s[1] == '-' then ReadDefault(s[2..], name, "") else Err(BadSeparator)
    else if WordChar(s[0]) then ReadRef(s[1..], name + [s[0]])
    else Err(BadCharacter(s[0]))
  }

  predicate Opens(s: string) {
    |s| >= 2 && s[0] == '$' && s[1] == '{'
  }

  function Prefixed(p: string, r: Result<string, ExpandError>): Result<string, ExpandError> {
    match r
    case Ok(s) => Ok(p + s)
    case Err(e) => Err(e)
  }

  function Expand(s: string, env: Env): Result<string, ExpandError>
    decreases |s|
  {
    if s == "" then Ok("")
    else if Opens(s) then
      match ReadRef(s[2..], "")
      case Err(e) => Err(e)
      case Ok((ref, rest)) => Prefixed(Lookup(ref, env), Expand(rest, env))
    else Prefixed([s[0]], Expand(s[1..], env))
  }

  // The expander itself.

  /** A peekable stream of characters. */
  class CharStream {
    const text: string
    var pos: nat

    ghost predicate Valid()
      reads this
    {
      pos <= |text|
    }

    ghost function Rest(): string
      reads this
      requires Valid()
    {
      text[pos..]
    }

    constructor (text: string)
      ensures Valid() && Rest() == text
    {
      this.text := text;
      pos := 0;
    }

    method Peek() returns (c: Option<char>)
      requires Valid()
      ensures c == if Rest() == "" then None else Some(Rest()[0])
    {
      c := if pos < |text| then Some(text[pos]) else None;
    }

    method Next() returns (c: Option<char>)
      requires Valid()
      modifies this
      ensures Valid()
      ensures old(Rest()) == "" ==> c == None && Rest() == ""
      ensures old(Rest()) != "" ==> c == Some(old(Rest())[0]) && Rest() == old(Rest())[1..]
    {
      c := None;
      if pos < |text| {
        c := Some(text[pos]);
        pos := pos + 1;
      }
    }
  }

  /** The three ways the expander goes on. */
  lemma ExpandStep(s: string, env: Env)
    requires s != ""
    ensures !Opens(s) ==> Expand(s, env) == Prefixed([s[0]], Expand(s[1..], env))
    ensures Opens(s) && ReadRef(s[2..], "").Err? ==>
      forall p :: Prefixed(p, Expand(s, env)) == Err(ReadRef(s[2..], "").error)
    ensures Opens(s) && ReadRef(s[2..], "").Ok? ==>
      Expand(s, env) == Prefixed(Lookup(ReadRef(s[2..], "").value.0, env), Expand(ReadRef(s[2..], "").value.1, env))
  {
  }

  lemma ExpandNothing(p: string, env: Env)
    ensures Prefixed(p, Expand("", env)) == Ok(p)
  {
    assert p + "" == p;
  }

  method SubstituteEnvVars(text: string, env: Env) returns (r: Result<string, ExpandError>)
    ensures r == Expand(text, env)
  {
    hide ReadRef, Lookup, Expand, Prefixed;
    var result := "";
    var chars := new CharStream(text);
    var ch := chars.Next();
    ghost var unread := text;
    PrefixedEmpty(Expand(text, env));
    while ch.Some?
      invariant chars.Valid()
      invariant if ch.Some? then unread == [ch.value] + chars.Rest() else unread == ""
      invariant Expand(text, env) == Prefixed(result, Expand(unread, env))
      decreases |unread|
    {
      ghost var rest := chars.Rest();
      assert unread[1..] == rest && unread[0] == ch.value;
      ExpandStep(unread, env);
      var next := chars.Peek();
      assert Opens(unread) <==> ch.value == '$' && next == Some('{');
      hide Opens;
      if ch.value == '$' && next == Some('{') {
        var _ := chars.Next();
        rest := chars.Rest();
        assert unread[2..] == rest;
        var parsed := ParseVarRef(chars);
        if parsed.Err? {
          return Err(parsed.error);
        }
        var value := Lookup(parsed.value, env);
        rest := chars.Rest();
        PrefixedTwice(result, value, Expand(rest, env));
        result := result + value;
      } else {
        PrefixedTwice(result, [ch.value], Expand(rest, env));
        result := result + [ch.value];
      }
      unread := rest;
      ch := chars.Next();
    }
    ExpandNothing(result, env);
    return Ok(result);
  }

  lemma PrefixedEmpty(r: Result<string, ExpandError>)
    ensures Prefixed("", r) == r
  {
    if r.Ok? { assert "" + r.value == r.value; }
  }

  lemma PrefixedTwice(a: string, b: string, r: Result<string, ExpandError>)
    ensures Prefixed(a, Prefixed(b, r)) == Prefixed(a + b, r)
  {
    if r.Ok? { assert a + (b + r.value) == a + b + r.value; }
  }

  method ParseVarRef(chars: CharStream) returns (r: Result<Ref, ExpandError>)
    requires chars.Valid()
    modifies chars
    ensures chars.Valid()
    ensures match ReadRef(old(chars.Rest()), "")
            case Err(e) => r == Err(e)
            case Ok((ref, rest)) => r == Ok(ref) && chars.Rest() == rest
  {
    var varName := "";
    var c := chars.Peek();
    while c.Some?
      invariant chars.Valid() && c == if chars.Rest() == "" then None else Some(chars.Rest()[0])
      invariant ReadRef(chars.Rest(), varName) == ReadRef(old(chars.Rest()), "")
      decreases |chars.Rest()|
    {
      var ch := c.value;
      if ch == '}' {
        var _ := chars.Next();
        return Ok(Ref(varName, None));
      } else if ch == ':' {
        ghost var rest := chars.Rest();
        var _ := chars.Next();
        var separator := chars.Peek();
        if separator == Some('-') {
          var _ := chars.Next();
          assert chars.Rest() == rest[2..];
          var default := "";
          var d := chars.Peek();
          while d.Some?
            invariant chars.Valid() && d == if chars.Rest() == "" then None else Some(chars.Rest()[0])
            invariant ReadDefault(chars.Rest(), varName, default) == ReadRef(old(chars.Rest()), "")
            decreases |chars.Rest()|
          {
            if d.value == '}' {
              var _ := chars.Next();
              return Ok(Ref(varName, Some(default)));
            }
            default := default + [d.value];
            var _ := chars.Next();
            d := chars.Peek();
          }
          return Err(UnclosedDefault);
        } else {
          return Err(BadSeparator);
        }
      } else if WordChar(ch) {
        varName := varName + [ch];
        var _ := chars.Next();
        c := chars.Peek();
      } else {
        return Err(BadCharacter(ch));
      }
    }
    return Err(UnclosedReference);
  }

  // Every text of the grammar expands to its meaning.

  lemma {:induction false} DefaultReads(d: string, tail: string, name: string, default: string)
    requires '}' !in d
    ensures ReadDefault(d + "}" + tail, name, default) == Ok((Ref(name, Some(default + d)), tail))
  {
    var s := d + "}" + tail;
    if d == "" {
      assert s == "}" + tail && default + d == default;
    } else {
      assert s[1..] == d[1..] + "}" + tail;
      DefaultReads(d[1..], tail, name, default + [d[0]]);
      assert default + [d[0]] + d[1..] == default + d;
    }
  }

  lemma FallbackReads(r: Ref, tail: string)
    requires WellFormedRef(r)
    ensures ReadRef(FallbackText(r.fallback) + tail, r.name) == Ok((r, tail))
  {
    var s := FallbackText(r.fallback) + tail;
    match r.fallback {
      case None => assert s[1..] == tail;
      case Some(d) =>
        assert s[2..] == d + "}" + tail;
        DefaultReads(d, tail, r.name, "");
        assert "" + d == d;
    }
  }

  lemma {:induction false} RefReads(word: string, r: Ref, tail: string, name: string)
    requires WellFormedRef(r) && r.name == name + word
    ensures ReadRef(word + FallbackText(r.fallback) + tail, name) == Ok((r, tail))
  {
    var s := word + FallbackText(r.fallback) + tail;
    if word == "" {
      assert r.name == name && s == FallbackText(r.fallback) + tail;
      FallbackReads(r, tail);
    } else {
      assert r.name[|name|] == word[0];
      assert s[1..] == word[1..] + FallbackText(r.fallback) + tail;
      assert name + [word[0]] + word[1..] == name + word;
      hide FallbackText;
      RefReads(word[1..], r, tail, name + [word[0]]);
    }
  }

  lemma {:induction false} LiteralPasses(s: string, tail: string, env: Env)
    requires Plain(s) && (tail == "" || tail[0] != '{')
    ensures Expand(s + tail, env) == Prefixed(s, Expand(tail, env))
  {
    if s == "" {
      assert s + tail == tail;
      if Expand(tail, env).Ok? { assert "" + Expand(tail, env).value == Expand(tail, env).value; }
    } else {
      assert (s + tail)[1..] == s[1..] + tail;
      assert Plain(s[1..]) by {
        forall i | 0 <= i < |s[1..]| - 1 ensures !(s[1..][i] == '$' && s[1..][i + 1] == '{') {
          assert s[1..][i] == s[i + 1] && s[1..][i + 1] == s[i + 2];
        }
      }
      assert !Opens(s + tail);
      LiteralPasses(s[1..], tail, env);
      PrefixedTwice([s[0]], s[1..], Expand(tail, env));
      assert [s[0]] + s[1..] == s;
    }
  }

  lemma {:induction false} GrammarExpands(t: Template, env: Env)
    requires WellFormed(t)
    ensures Expand(Print(t), env) == Ok(Eval(t, env))
  {
    match t
    case Literal(s) =>
      LiteralPasses(s, "", env);
      assert s + "" == s;
    case Before(s, r, rest) =>
      var tail := "${" + RefTail(r) + Print(rest);
      assert Print(t) == s + tail;
      LiteralPasses(s, tail, env);
      assert tail[2..] == r.name + FallbackText(r.fallback) + Print(rest);
      RefReads(r.name, r, Print(rest), "");
      GrammarExpands(rest, env);
      PrefixedTwice(s, Lookup(r, env), Expand(Print(rest), env));
  }

  // Every text that expands is in the grammar.

  lemma {:induction false} DefaultWasRead(s: string, name: string, default: string)
    requires ReadDefault(s, name, default).Ok?
    ensures var (r, rest) := ReadDefault(s, name, default).value;
      exists d :: '}' !in d && s == d + "}" + rest && r == Ref(name, Some(default + d))
  {
    if s[0] == '}' {
      assert s == "" + "}" + s[1..] && default + "" == default;
    } else {
      DefaultWasRead(s[1..], name, default + [s[0]]);
      var (r, rest) := ReadDefault(s, name, default).value;
      var d :| '}' !in d && s[1..] == d + "}" + rest && r == Ref(name, Some(default + [s[0]] + d));
      assert default + [s[0]] + d == default + ([s[0]] + d);
      assert s == ([s[0]] + d) + "}" + rest;
    }
  }

  lemma DefaultText(s: string, name: string, d: string, rest: string)
    requires |s| >= 2 && s[0] == ':' && s[1] == '-' && s[2..] == d + "}" + rest
    ensures name + s == name + (":-" + d + "}") + rest
  {
    assert s == ":-" + s[2..];
  }

  lemma {:induction false} RefWasRead(s: string, name: string)
    requires ReadRef(s, name).Ok? && IsWord(name)
    ensures var (r, rest) := ReadRef(s, name).value;
      && WellFormedRef(r)
      && name + s == RefTail(r) + rest
  {
    var (r, rest) := ReadRef(s, name).value;
    if s[0] == '}' {
      assert s == "}" + rest;
      assert name + s == name + "}" + rest;
    } else if s[0] == ':' {
      DefaultWasRead(s[2..], name, "");
      var d :| '}' !in d && s[2..] == d + "}" + rest && r == Ref(name, Some("" + d));
      assert "" + d == d;
      DefaultText(s, name, d, rest);
    } else {
      RefWasRead(s[1..], name + [s[0]]);
      assert name + [s[0]] + s[1..] == name + s;
    }
  }

  lemma {:induction false} ExpandedIsGrammar(s: string, env: Env) returns (t: Template)
    requires Expand(s, env).Ok?
    ensures WellFormed(t) && Print(t) == s
    decreases |s|
  {
    if s == "" {
      t := Literal("");
      assert Plain("");
    } else if Opens(s) {
      RefWasRead(s[2..], "");
      var (r, rest) := ReadRef(s[2..], "").value;
      hide ReadRef, WellFormedRef, RefTail;
      var t' := ExpandedIsGrammar(rest, env);
      assert "" + s[2..] == s[2..];
      RefInFront(s, r, rest, t');
      t := Before("", r, t');
    } else {
      hide ReadRef;
      var t' := ExpandedIsGrammar(s[1..], env);
      CharInFront(s, t');
      t := t'.(text := [s[0]] + t'.text);
    }
  }

  lemma RefInFront(s: string, r: Ref, rest: string, t: Template)
    requires Opens(s) && s[2..] == RefTail(r) + rest && WellFormedRef(r) && WellFormed(t) && Print(t) == rest
    ensures WellFormed(Before("", r, t)) && Print(Before("", r, t)) == s
  {
    hide RefTail, WellFormedRef;
    assert Plain("");
    assert s == "${" + s[2..];
    assert "" + "${" + RefTail(r) + rest == "${" + (RefTail(r) + rest);
  }

  lemma CharInFront(s: string, t: Template)
    requires s != "" && !Opens(s) && WellFormed(t) && Print(t) == s[1..]
    ensures WellFormed(t.(text := [s[0]] + t.text)) && Print(t.(text := [s[0]] + t.text)) == s
  {
    StillPlain(s, t);
    hide Plain;
    PrintFirst(t, s[0]);
    hide Print;
    assert [s[0]] + s[1..] == s;
  }

  lemma PrintFirst(t: Template, c: char)
    ensures Print(t.(text := [c] + t.text)) == [c] + Print(t)
  {
    match t
    case Literal(_) =>
    case Before(s, r, rest) => FirstOfFour([c], s, "${", RefTail(r), Print(rest));
  }

  lemma FirstOfFour(a: string, b: string, c: string, d: string, e: string)
    ensures a + b + c + d + e == a + (b + c + d + e)
  {
  }

  lemma StillPlain(s: string, t: Template)
    requires s != "" && !Opens(s) && Print(t) == s[1..] && Plain(t.text)
    ensures Plain([s[0]] + t.text)
  {
    if t.text != "" {
      assert t.text[0] == Print(t)[0] == s[1];
    }
  }

  /** The expander succeeds exactly on the texts of the grammar. */
  lemma SucceedsOnGrammar(s: string, env: Env)
    ensures Expand(s, env).Ok? <==> exists t :: WellFormed(t) && Print(t) == s
  {
    if Expand(s, env).Ok? {
      var t := ExpandedIsGrammar(s, env);
    }
    if exists t :: WellFormed(t) && Print(t) == s {
      var t :| WellFormed(t) && Print(t) == s;
      GrammarExpands(t, env);
    }
  }
}
