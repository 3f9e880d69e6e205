/** Host names as the configuration accepts them. A name is the sequence of its UTF-8 bytes. */
module Hostnames {
  import opened Wrappers

  /** The parts between the dots: always one more than there are dots. */
  function Labels(name: string): (labels: seq<string>)
    ensures labels != []
  {
    if name == "" then [""] else
      var labels := Labels(name[..|name| - 1]);
      var c := name[|name| - 1];
      if c == '.' then labels + [""]
      else labels[..|labels| - 1] + [labels[|labels| - 1] + [c]]
  }

  predicate LabelOk(part: string) {
    && 0 < |part| <= 63
    && part[0] != '-' && part[|part| - 1] != '-'
    && forall i :: 0 <= i < |part| ==> Alphanumeric(part[i]) || part[i] == '-'
  }

  predicate AllOk(labels: seq<string>) {
    forall k :: 0 <= k < |labels| ==> LabelOk(labels[k])
  }

  /** RFC 1123 said of single characters, for a name in its absolute form, which ends with a dot: it has
      letters, digits, hyphens and dots only; what comes first, follows a dot or precedes a dot is a letter
      or digit; any 64 characters in a row have a dot among them. */
  ghost predicate Absolute(name: string) {
    && (forall i :: 0 <= i < |name| ==> PlaceOk(name, i))
    && (forall i :: 0 <= i <= |name| - 64 ==> HasDot(name, i))
  }

  predicate PlaceOk(name: string, i: nat)
    requires i < |name|
  {
    && (Alphanumeric(name[i]) || name[i] == '-' || name[i] == '.')
    && (name[i] == '.' ==> i > 0 && Alphanumeric(name[i - 1]))
    && (i == 0 || name[i - 1] == '.' ==> Alphanumeric(name[i]))
  }

  ghost predicate HasDot(name: string, i: nat) {
    exists k :: i <= k < i + 64 && k < |name| && name[k] == '.'
  }

  ghost predicate ValidHostname(name: string) {
    |name| <= 253 && Absolute(name + ".")
  }

  lemma EmptyIsInvalid()
    ensures !ValidHostname("")
  {
    assert "" + "." == "." && !PlaceOk(".", 0);
  }

  /** A letter of either case or a digit. */
  predicate LiteralOk(c: char) {
    c in "abcdefghijklmnopqrstuvwxyz" || c in "ABCDEFGHIJKLMNOPQRSTUVWXYZ" || c in "0123456789"
  }

  lemma LettersAndDigits(c: char)
    ensures Alphanumeric(c) <==> LiteralOk(c)
  {
  }

  /** What a valid name consists of, and which names of one label are valid for sure. */
  lemma ValidSays(name: string)
    ensures ValidHostname(name) ==>
      0 < |name| <= 253 && forall i :: 0 <= i < |name| ==> LiteralOk(name[i]) || name[i] == '-' || name[i] == '.'
    ensures 0 < |name| <= 63 && (forall i :: 0 <= i < |name| ==> LiteralOk(name[i])) ==> ValidHostname(name)
  {
    EmptyIsInvalid();
    forall c ensures Alphanumeric(c) <==> LiteralOk(c) { LettersAndDigits(c); }
    hide LiteralOk, Alphanumeric;
    var all := name + ".";
    if ValidHostname(name) {
      forall i | 0 <= i < |name| ensures LiteralOk(name[i]) || name[i] == '-' || name[i] == '.' {
        assert PlaceOk(all, i) && all[i] == name[i];
      }
    }
    if 0 < |name| <= 63 && forall i :: 0 <= i < |name| ==> LiteralOk(name[i]) {
      assert all[|name|] == '.';
      forall i | 0 <= i < |all| ensures PlaceOk(all, i) {
        assert i < |name| ==> all[i] == name[i];
      }
      assert HasDot(all, 0);
    }
  }

  function LongName(): (name: string)
    ensures |name| == 253
  {
    seq(253, i => if i % 64 == 63 then '.' else 'a')
  }

  /** Names of 253 characters can be valid. */
  lemma LongestIsValid()
    ensures ValidHostname(LongName())
  {
    var all := LongName() + ".";
    forall i | 0 <= i < |all| ensures all[i] == if i % 64 == 63 || i == 253 then '.' else 'a' {}
    forall i | 0 <= i <= |all| - 64 ensures HasDot(all, i) {
      var k := i + 63 - i % 64;
      assert k % 64 == 63 && all[k] == '.';
    }
  }

  /** The scan of the source: both loops leave at the first thing that is wrong. */
  method IsValidHostname(name: string) returns (valid: bool)
    ensures valid <==> ValidHostname(name)
    ensures valid ==>
      0 < |name| <= 253 && forall i :: 0 <= i < |name| ==> LiteralOk(name[i]) || name[i] == '-' || name[i] == '.'
    ensures 0 < |name| <= 63 && (forall i :: 0 <= i < |name| ==> LiteralOk(name[i])) ==> valid
  {
    ValidSays(name);
    hide LiteralOk;
    LabelsAreTheName(name);
    if name == "" {
      assert !LabelOk(Labels(name)[0]);
      return false;
    }
    if |name| > 253 {
      return false;
    }
    var labels := Labels(name);
    for k := 0 to |labels|
      invariant AllOk(labels[..k])
    {
      var part := labels[k];
      if |part| == 0 || |part| > 63 {
        return false;
      }
      if part[0] == '-' || part[|part| - 1] == '-' {
        return false;
      }
      for i := 0 to |part|
        invariant forall j :: 0 <= j < i ==> Alphanumeric(part[j]) || part[j] == '-'
      {
        if !(Alphanumeric(part[i]) || part[i] == '-') {
          return false;
        }
      }
    }
    assert labels == labels[..|labels|];
    return true;
  }

  lemma AllOkMore(labels: seq<string>, part: string)
    ensures AllOk(labels + [part]) <==> AllOk(labels) && LabelOk(part)
  {
    var more := labels + [part];
    if AllOk(more) {
      assert more[|labels|] == part;
      forall k | 0 <= k < |labels| ensures LabelOk(labels[k]) { assert more[k] == labels[k]; }
    }
  }

  ghost predicate LastBegins(name: string, m: nat) {
    && m <= |name| && (m == 0 || name[m - 1] == '.')
    && forall i :: m <= i < |name| ==> name[i] != '.'
  }

  /** Where the last label begins, and what the labels before it say of the name up to there. */
  lemma {:induction false} LabelsSoFar(name: string) returns (m: nat)
    ensures LastBegins(name, m)
    ensures var labels := Labels(name);
      && labels[|labels| - 1] == name[m..]
      && (AllOk(labels[..|labels| - 1]) <==> Absolute(name[..m]))
  {
    hide Absolute, LabelOk, AllOk;
    if name == "" {
      m := 0;
      NothingYet();
      assert Labels(name)[..0] == [] && name[..0] == "";
    } else {
      var before, c := name[..|name| - 1], name[|name| - 1];
      m := LabelsSoFar(before);
      var labels := Labels(before);
      if c == '.' {
        AfterDot(before, m, labels);
        assert name == before + ".";
        assert Labels(name)[..|labels|] == labels;
        m := |name|;
        assert name[..m] == name;
      } else {
        assert name[..m] == before[..m] && name[m..] == before[m..] + [c];
        assert Labels(name)[..|labels| - 1] == labels[..|labels| - 1];
      }
    }
  }

  lemma NothingYet()
    ensures AllOk([]) && Absolute("")
  {
  }

  lemma AfterDot(name: string, m: nat, labels: seq<string>)
    requires LastBegins(name, m) && labels != [] && labels[|labels| - 1] == name[m..]
    requires AllOk(labels[..|labels| - 1]) <==> Absolute(name[..m])
    ensures AllOk(labels) <==> Absolute(name + ".")
  {
    hide Absolute, LabelOk, AllOk;
    OneMoreLabel(name, m);
    AllOkMore(labels[..|labels| - 1], name[m..]);
    assert labels[..|labels| - 1] + [name[m..]] == labels;
  }

  lemma OneMoreLabel(name: string, m: nat)
    requires LastBegins(name, m)
    ensures Absolute(name + ".") <==> Absolute(name[..m]) && LabelOk(name[m..])
  {
    if Absolute(name + ".") { Shorter(name, m); }
    if Absolute(name[..m]) && LabelOk(name[m..]) { Longer(name, m); }
  }

  lemma Shorter(name: string, m: nat)
    requires LastBegins(name, m) && Absolute(name + ".")
    ensures Absolute(name[..m]) && LabelOk(name[m..])
  {
    var all, part := name + ".", name[m..];
    assert PlaceOk(all, |name|) && PlaceOk(all, m);
    assert |part| >= 64 ==> HasDot(all, m);
    forall i | 0 <= i < |part| ensures Alphanumeric(part[i]) || part[i] == '-' {
      assert PlaceOk(all, m + i) && all[m + i] == name[m + i];
    }
    forall i | 0 <= i < m ensures PlaceOk(name[..m], i) {
      assert PlaceOk(all, i);
    }
    forall i | 0 <= i <= m - 64 ensures HasDot(name[..m], i) {
      assert HasDot(all, i);
      var k :| i <= k < i + 64 && k < |all| && all[k] == '.';
      assert name[..m][k] == '.';
    }
  }

  lemma Longer(name: string, m: nat)
    requires LastBegins(name, m) && Absolute(name[..m]) && LabelOk(name[m..])
    ensures Absolute(name + ".")
  {
    var all, part := name + ".", name[m..];
    assert part[|part| - 1] == all[|name| - 1] && part[0] == all[m];
    forall i | 0 <= i < |all| ensures PlaceOk(all, i) {
      if i < m {
        assert PlaceOk(name[..m], i);
      } else if i < |name| {
        assert all[i] == part[i - m];
      }
    }
    forall i | 0 <= i <= |all| - 64 ensures HasDot(all, i) {
      if i + 64 <= m {
        assert HasDot(name[..m], i);
        var k :| i <= k < i + 64 && k < m && name[..m][k] == '.';
        assert all[k] == '.';
      } else if i < m {
        assert all[m - 1] == '.';
      } else {
        assert all[|name|] == '.';
      }
    }
  }

  /** The names whose labels are all right are the names whose absolute form is. */
  lemma LabelsAreTheName(name: string)
    ensures AllOk(Labels(name)) <==> Absolute(name + ".")
  {
    var m := LabelsSoFar(name);
    OneMoreLabel(name, m);
    var labels := Labels(name);
    assert labels == labels[..|labels| - 1] + [name[m..]];
  }
}
