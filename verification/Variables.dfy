/** What a variable reference in a configuration text means, and which mistake gives which error, said of
    the text and the environment alone. */
module Variables {
  import opened Wrappers
  import opened Template

  predicate NameText(name: string) {
    forall i :: 0 <= i < |name| ==>
      'a' <= name[i] <= 'z' || 'A' <= name[i] <= 'Z' || '0' <= name[i] <= '9' || name[i] == '_'
  }

  /** No reference opens in this text. */
  predicate NoReference(s: string) {
    forall i :: 0 <= i < |s| - 1 ==> !(s[i] == '$' && s[i + 1] == '{')
  }

  /** `before` and `value` in front of an expanded text. */
  function InFront(before: string, value: string, r: Result<string, ExpandError>): Result<string, ExpandError> {
    if r.Ok? then Ok(before + value + r.value) else r
  }

  lemma ReferenceExpands(before: string, r: Ref, rest: string, env: Env)
    requires NoReference(before) && WellFormedRef(r)
    ensures Expand(before + ("${" + RefTail(r) + rest), env) == InFront(before, Lookup(r, env), Expand(rest, env))
  {
    var tail := "${" + RefTail(r) + rest;
    LiteralPasses(before, tail, env);
    assert tail[2..] == r.name + FallbackText(r.fallback) + rest;
    RefReads(r.name, r, rest, "");
    assert Expand(tail, env) == Prefixed(Lookup(r, env), Expand(rest, env));
    PrefixedTwice(before, Lookup(r, env), Expand(rest, env));
  }

  /** Anywhere in a text, `${name}` is the variable if it is set and nothing otherwise; what follows is
      expanded on its own. */
  lemma PlainReference(before: string, name: string, rest: string, env: Env)
    requires NoReference(before) && NameText(name)
    ensures Expand(before + ("${" + name + "}" + rest), env) ==
            InFront(before, if name in env then env[name] else "", Expand(rest, env))
  {
    var r := Ref(name, None);
    assert RefTail(r) == name + "}";
    assert "${" + RefTail(r) + rest == "${" + name + "}" + rest;
    hide Expand;
    ReferenceExpands(before, r, rest, env);
  }

  /** Anywhere in a text, `${name:-d}` is the variable if it is set, even when it is empty, and `d` as it stands
      otherwise. */
  lemma ReferenceWithDefault(before: string, name: string, d: string, rest: string, env: Env)
    requires NoReference(before) && NameText(name) && '}' !in d
    ensures Expand(before + ("${" + name + ":-" + d + "}" + rest), env) ==
            InFront(before, if name in env then env[name] else d, Expand(rest, env))
  {
    var r := Ref(name, Some(d));
    assert RefTail(r) == name + ":-" + d + "}";
    assert "${" + RefTail(r) + rest == "${" + name + ":-" + d + "}" + rest;
    hide Expand;
    ReferenceExpands(before, r, rest, env);
  }

  /** A text alone stays as it is. */
  lemma TextAlone(s: string, env: Env)
    requires NoReference(s)
    ensures Expand(s, env) == Ok(s)
  {
    LiteralPasses(s, "", env);
    assert s + "" == s;
  }

  // Mistakes.

  lemma {:induction false} NamePasses(name: string, tail: string, word: string)
    requires NameText(name)
    ensures ReadRef(name + tail, word) == ReadRef(tail, word + name)
  {
    if name == "" {
      assert name + tail == tail && word + name == word;
    } else {
      assert (name + tail)[1..] == name[1..] + tail;
      assert word + [name[0]] + name[1..] == word + name;
      NamePasses(name[1..], tail, word + [name[0]]);
    }
  }

  lemma {:induction false} NeverClosed(d: string, name: string, default: string)
    requires '}' !in d
    ensures ReadDefault(d, name, default) == Err(UnclosedDefault)
  {
    if d != "" { NeverClosed(d[1..], name, default + [d[0]]); }
  }

  lemma MistakeStops(before: string, name: string, tail: string, env: Env)
    requires NoReference(before) && NameText(name) && ReadRef(tail, name).Err?
    ensures Expand(before + ("${" + name + tail), env) == Err(ReadRef(tail, name).error)
  {
    var text := "${" + name + tail;
    LiteralPasses(before, text, env);
    assert text[2..] == name + tail && "" + name == name;
    NamePasses(name, tail, "");
  }

  /** After a text without references and a name: the end of the text, a character that names do not have, a
      colon without hyphen, and a default without closing brace each give their own error. */
  lemma MistakesExactly(before: string, name: string, tail: string, env: Env)
    requires NoReference(before) && NameText(name)
    ensures var r := Expand(before + ("${" + name + tail), env);
      && (tail == "" ==> r == Err(UnclosedReference))
      && (tail != "" && tail[0] != '}' && tail[0] != ':' && !NameText([tail[0]]) ==> r == Err(BadCharacter(tail[0])))
      && (tail != "" && tail[0] == ':' && (|tail| == 1 || tail[1] != '-') ==> r == Err(BadSeparator))
      && (|tail| >= 2 && tail[..2] == ":-" && '}' !in tail[2..] ==> r == Err(UnclosedDefault))
  {
    if |tail| >= 2 && tail[..2] == ":-" && '}' !in tail[2..] {
      assert tail[0] == ':' && tail[1] == '-';
      NeverClosed(tail[2..], name, "");
    }
    assert tail != "" ==> [tail[0]][0] == tail[0];
    if ReadRef(tail, name).Err? { MistakeStops(before, name, tail, env); }
  }
}
