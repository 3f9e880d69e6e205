/** Whole-string replacement of one character, and chains of such replacements. */
module Escaping {
  import opened Wrappers

  /** Every occurrence of `c` becomes `text`. */
  function Replace(s: string, c: char, text: string): string {
    if s == "" then "" else (if s[0] == c then text else [s[0]]) + Replace(s[1..], c, text)
  }

  /** A chain of replacements, first to last. */
  function ReplaceAll(s: string, rules: seq<(char, string)>): string
    decreases |rules|
  {
    if rules == [] then s else ReplaceAll(Replace(s, rules[0].0, rules[0].1), rules[1..])
  }

  /** A one-pass escape: each character on its own. */
  function Escape(s: string, rules: seq<(char, string)>): string {
    if s == "" then "" else EscapeChar(s[0], rules) + Escape(s[1..], rules)
  }

  function EscapeChar(c: char, rules: seq<(char, string)>): string {
    if rules == [] then [c]
    else if rules[0].0 == c then rules[0].1
    else EscapeChar(c, rules[1..])
  }

  /** No replacement text contains a character that a later rule replaces. */
  predicate Settled(rules: seq<(char, string)>) {
    forall i, j :: 0 <= i < j < |rules| ==> rules[j].0 !in rules[i].1
  }

  lemma {:induction false} ReplaceConcat(a: string, b: string, c: char, text: string)
    ensures Replace(a + b, c, text) == Replace(a, c, text) + Replace(b, c, text)
  {
    if a == "" {
      assert a + b == b;
    } else {
      var head := if a[0] == c then text else [a[0]];
      ReplaceConcat(a[1..], b, c, text);
      assert (a + b)[1..] == a[1..] + b;
      assert Replace(a + b, c, text) == head + (Replace(a[1..], c, text) + Replace(b, c, text));
    }
  }

  lemma {:induction false} ReplaceAllConcat(a: string, b: string, rules: seq<(char, string)>)
    ensures ReplaceAll(a + b, rules) == ReplaceAll(a, rules) + ReplaceAll(b, rules)
    decreases |rules|
  {
    if rules != [] {
      ReplaceConcat(a, b, rules[0].0, rules[0].1);
      ReplaceAllConcat(Replace(a, rules[0].0, rules[0].1), Replace(b, rules[0].0, rules[0].1), rules[1..]);
    }
  }

  lemma {:induction false} ReplaceAbsent(s: string, c: char, text: string)
    requires c !in s
    ensures Replace(s, c, text) == s
  {
    if s != "" {
      assert s[1..] == s[1..] && forall x :: x in s[1..] ==> x in s;
      ReplaceAbsent(s[1..], c, text);
    }
  }

  lemma {:induction false} ReplaceAllAbsent(s: string, rules: seq<(char, string)>)
    requires forall j :: 0 <= j < |rules| ==> rules[j].0 !in s
    ensures ReplaceAll(s, rules) == s
  {
    if rules != [] {
      ReplaceAbsent(s, rules[0].0, rules[0].1);
      ReplaceAllAbsent(s, rules[1..]);
    }
  }

  lemma {:induction false} ReplaceAllChar(c: char, rules: seq<(char, string)>)
    requires Settled(rules)
    ensures ReplaceAll([c], rules) == EscapeChar(c, rules)
  {
    if rules != [] {
      assert [c][1..] == "" && Replace("", rules[0].0, rules[0].1) == "";
      if rules[0].0 == c {
        assert Replace([c], rules[0].0, rules[0].1) == rules[0].1;
        ReplaceAllAbsent(rules[0].1, rules[1..]);
      } else {
        assert Replace([c], rules[0].0, rules[0].1) == [c];
        ReplaceAllChar(c, rules[1..]);
      }
    }
  }

  lemma {:induction false} ReplaceAllEmpty(rules: seq<(char, string)>)
    ensures ReplaceAll("", rules) == ""
  {
    if rules != [] {
      ReplaceAllEmpty(rules[1..]);
    }
  }

  /** Successive whole-string replacements equal the one-pass escape when no replacement text is
      touched by a later replacement. */
  lemma {:induction false} ChainIsOnePass(s: string, rules: seq<(char, string)>)
    requires Settled(rules)
    ensures ReplaceAll(s, rules) == Escape(s, rules)
  {
    if s == "" {
      ReplaceAllEmpty(rules);
    } else {
      assert s == [s[0]] + s[1..];
      ReplaceAllConcat([s[0]], s[1..], rules);
      ReplaceAllChar(s[0], rules);
      ChainIsOnePass(s[1..], rules);
    }
  }

  // Reading escaped text one character at a time.

  /** One more character in front of what was read; None once anything could not be read. */
  function Prepend(c: Option<char>, r: Option<(string, string)>): Option<(string, string)> {
    if c.Some? && r.Some? then Some(([c.value] + r.value.0, r.value.1)) else None
  }
}
