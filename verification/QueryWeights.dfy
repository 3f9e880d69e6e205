/**
 When a query string loses nothing, for every way of decoding that shortens what it changes, as
 percent-decoding does. A parameter weighs as much as it takes in the text; parsing never adds weight, and
 keeps it only if every piece is read as it stands.
 */
module QueryWeights {
  import opened Wrappers
  import opened MapOrders
  import opened Headers
  import opened QueryText

  /** Decoding shortens every text that it changes. */
  ghost predicate Shortens(decode: string -> string) {
    forall s: string :: decode(s) == s || |decode(s)| < |s|
  }

  /** The key, the value, the sign between them and the separator after them. */
  function PairWeight(key: string, value: string): nat {
    |key| + 1 + |value| + 1
  }

  function ListWeight(key: string, values: seq<string>): nat {
    if values == [] then 0 else ListWeight(key, values[..|values| - 1]) + PairWeight(key, values[|values| - 1])
  }

  ghost function Weight(m: Params): nat {
    if m == map[] then 0 else
      var k :| k in m;
      ListWeight(k, m[k]) + Weight(m - {k})
  }

  /** Each text with the separator after it. */
  function TextsWeight(texts: seq<string>): nat {
    if texts == [] then 0 else TextsWeight(texts[..|texts| - 1]) + |texts[|texts| - 1]| + 1
  }

  // The weight of a map does not depend on the order of its keys.

  lemma {:induction false} WeightWithout(m: Params, k: string)
    requires k in m
    ensures Weight(m) == ListWeight(k, m[k]) + Weight(m - {k})
    decreases |m|
  {
    var c :| c in m && Weight(m) == ListWeight(c, m[c]) + Weight(m - {c});
    if c != k {
      WeightWithout(m - {c}, k);
      WeightWithout(m - {k}, c);
      assert m - {c} - {k} == m - {k} - {c};
    }
  }

  lemma AddWeight(m: Params, key: string, value: string)
    ensures Weight(Add(m, key, value)) == Weight(m) + PairWeight(key, value)
  {
    var m' := Add(m, key, value);
    WeightWithout(m', key);
    assert m'[key][..|m'[key]| - 1] == if key in m then m[key] else [];
    if key in m {
      WeightWithout(m, key);
      assert m' - {key} == m - {key};
    } else {
      assert m' - {key} == m;
    }
  }

  // The weight of a text.

  lemma {:induction false} TextsWeightConcat(a: seq<string>, b: seq<string>)
    ensures TextsWeight(a + b) == TextsWeight(a) + TextsWeight(b)
  {
    if b == [] {
      assert a + b == a;
    } else {
      TextsWeightConcat(a, b[..|b| - 1]);
      assert (a + b)[..|a + b| - 1] == a + b[..|b| - 1];
    }
  }

  lemma {:induction false} JoinWeight(texts: seq<string>)
    requires texts != []
    ensures TextsWeight(texts) == |Join(texts, "&")| + 1
  {
    TextsWeightConcat(texts[..1], texts[1..]);
    assert texts == texts[..1] + texts[1..] && texts[..1][..0] == [];
    if |texts| > 1 {
      JoinWeight(texts[1..]);
    }
  }

  lemma {:induction false} SplitWeight(s: string)
    ensures TextsWeight(Split(s, '&')) == |s| + 1
  {
    if s == "" {
      assert [""][..0] == [];
    } else {
      var rest := Split(s[1..], '&');
      SplitWeight(s[1..]);
      if s[0] == '&' {
        TextsWeightConcat([""], rest);
        assert [""][..0] == [];
      } else {
        var first := [s[0]] + rest[0];
        TextsWeightConcat([first], rest[1..]);
        TextsWeightConcat([rest[0]], rest[1..]);
        assert [first][..0] == [] && [rest[0]][..0] == [];
        assert rest == [rest[0]] + rest[1..];
      }
    }
  }

  lemma {:induction false} KeyTextsWeight(key: string, values: seq<string>)
    ensures TextsWeight(KeyTexts(key, values)) == ListWeight(key, values)
  {
    if values != [] {
      KeyTextsWeight(key, values[..|values| - 1]);
      assert KeyTexts(key, values)[..|values| - 1] == KeyTexts(key, values[..|values| - 1]);
    }
  }

  /** Printing keeps the weight. */
  lemma {:induction false} PairTextsWeight(order: seq<string>, m: Params)
    requires Enumerates(order, m)
    ensures TextsWeight(PairTexts(order, m)) == Weight(m)
  {
    if order == [] {
      assert m == map[];
    } else {
      var init, last := order[..|order| - 1], order[|order| - 1];
      var rest := m - {last};
      assert last in order;
      assert order == init + [last];
      assert Enumerates(init, rest) by {
        forall k ensures k in init <==> k in rest { assert k in order <==> k in init || k == last; }
      }
      PairTextsWeight(init, rest);
      PairTextsSame(init, m, rest);
      TextsWeightConcat(PairTexts(init, m), KeyTexts(last, m[last]));
      KeyTextsWeight(last, m[last]);
      WeightWithout(m, last);
    }
  }

  lemma {:induction false} PairTextsSame(order: seq<string>, m: Params, m': Params)
    requires forall k :: k in order ==> k in m && k in m' && m[k] == m'[k]
    ensures PairTexts(order, m) == PairTexts(order, m')
  {
    if order != [] {
      PairTextsSame(order[..|order| - 1], m, m');
    }
  }

  // Parsing.

  lemma {:induction false} SplitOnceWeight(s: string, c: char)
    ensures SplitOnce(s, c).Some? ==>
      var (a, b) := SplitOnce(s, c).value;
      c !in a && |a| + 1 + |b| == |s| && forall x :: x in a || x in b ==> x in s
  {
    if s != "" {
      SplitOnceWeight(s[1..], c);
    }
  }

  lemma AddStaysClean(m: Params, key: string, value: string, decode: string -> string)
    requires CleanParams(m, decode) && CleanKey(key, decode) && CleanValue(value, decode)
    ensures CleanParams(Add(m, key, value), decode)
  {
  }

  /** One piece adds no more than its own weight, and as much only if it has a sign and decoding changes
      neither side. */
  lemma PieceWeight(m: Params, piece: string, decode: string -> string)
    requires Shortens(decode) && '&' !in piece
    ensures Weight(AddPiece(m, piece, decode)) <= Weight(m) + |piece| + 1
    ensures Weight(AddPiece(m, piece, decode)) == Weight(m) + |piece| + 1 && CleanParams(m, decode) ==>
      CleanParams(AddPiece(m, piece, decode), decode)
  {
    SplitOnceWeight(piece, '=');
    match SplitOnce(piece, '=')
    case None =>
    case Some((key, value)) =>
      assert decode(key) == key || |decode(key)| < |key|;
      assert decode(value) == value || |decode(value)| < |value|;
      AddWeight(m, decode(key), decode(value));
      if decode(key) == key && decode(value) == value && CleanParams(m, decode) {
        AddStaysClean(m, key, value, decode);
      }
  }

  /** Parsing adds no weight, and what it keeps completely reads back. */
  lemma {:induction false} ParsedWeight(pieces: seq<string>, decode: string -> string)
    requires Shortens(decode) && forall p :: p in pieces ==> '&' !in p
    ensures Weight(AddPieces(pieces, decode)) <= TextsWeight(pieces)
    ensures Weight(AddPieces(pieces, decode)) == TextsWeight(pieces) ==> CleanParams(AddPieces(pieces, decode), decode)
  {
    if pieces != [] {
      var init, last := pieces[..|pieces| - 1], pieces[|pieces| - 1];
      ParsedWeight(init, decode);
      assert last in pieces;
      PieceWeight(AddPieces(init, decode), last, decode);
      hide CleanParams, Weight, AddPiece;
    }
  }

  lemma {:induction false} SomeText(order: seq<string>, m: Params)
    requires (forall k :: k in order ==> k in m) && NoEmptyLists(m) && order != []
    ensures PairTexts(order, m) != []
  {
    var last := order[|order| - 1];
    assert last in order;
    assert |KeyTexts(last, m[last])| > 0;
  }

  // Pieces that say nothing.

  function WithoutBare(pieces: seq<string>): seq<string> {
    if pieces == [] then [] else
      WithoutBare(pieces[..|pieces| - 1]) + if '=' in pieces[|pieces| - 1] then [pieces[|pieces| - 1]] else []
  }

  lemma {:induction false} SplitOnceFinds(s: string, c: char)
    ensures SplitOnce(s, c).Some? <==> c in s
  {
    if s != "" {
      SplitOnceFinds(s[1..], c);
      assert c in s <==> s[0] == c || c in s[1..];
    }
  }

  /** Pieces without `=` change nothing: a query reads like the same query without them. */
  lemma {:induction false} BarePiecesAreIgnored(pieces: seq<string>, decode: string -> string)
    ensures AddPieces(pieces, decode) == AddPieces(WithoutBare(pieces), decode)
  {
    if pieces != [] {
      var init, last := pieces[..|pieces| - 1], pieces[|pieces| - 1];
      BarePiecesAreIgnored(init, decode);
      SplitOnceFinds(last, '=');
      if '=' in last {
        AddPiecesSnoc(WithoutBare(init), last, decode);
      } else {
        assert WithoutBare(pieces) == WithoutBare(init);
      }
    }
  }

  /** A query is its pairs: with a bare word behind one pair the pair is all there is. */
  lemma PairAndBareWord(key: string, value: string, word: string, decode: string -> string)
    requires '&' !in key && '=' !in key && '&' !in value && '&' !in word && '=' !in word
    ensures FromQuery(key + "=" + value + "&" + word, decode) == map[decode(key) := [decode(value)]]
    ensures FromQuery(word, decode) == map[]
  {
    var pair := key + "=" + value;
    assert "=" == ['='] && "&" == ['&'];
    assert '&' !in pair;
    SplitFirst(pair, word, '&');
    SplitNone(word, '&');
    SplitOnceFirst(key, value, '=');
    BarePiecesAreIgnored([pair, word], decode);
    BarePiecesAreIgnored([word], decode);
    assert [pair] + [word] == [pair, word] && [pair, word][..1] == [pair] && [pair][..0] == [] && [word][..0] == [];
    assert pair[|key|] == '=';
    assert WithoutBare([pair]) == WithoutBare([]) + [pair] && WithoutBare([word]) == [];
    assert WithoutBare([pair, word]) == [pair];
    assert AddPieces([pair], decode) == AddPiece(map[], pair, decode);
    assert [] + [decode(value)] == [decode(value)];
  }

  // The results.

  /** Parameters survive printing and parsing exactly when no key holds `&` or `=`, no value holds `&`, and
      decoding changes no key and no value. */
  lemma RoundTripExactly(order: seq<string>, m: Params, decode: string -> string)
    requires Enumerates(order, m) && NoEmptyLists(m) && Shortens(decode)
    ensures FromQuery(ToText(order, m), decode) == m <==> CleanParams(m, decode)
  {
    if CleanParams(m, decode) {
      RoundTrip(order, m, decode);
    } else if FromQuery(ToText(order, m), decode) == m {
      var text := ToText(order, m);
      assert order != [];
      SomeText(order, m);
      PairTextsWeight(order, m);
      JoinWeight(PairTexts(order, m));
      SplitWeight(text);
      SplitPieces(text, '&');
      ParsedWeight(Split(text, '&'), decode);
      assert false;
    }
  }

  /** The text of a value that looks percent-encoded is not encoded again and reads back as another value. */
  lemma PercentIsLost(decode: string -> string)
    requires decode("a") == "a" && decode("%25") == "%"
    ensures FromQuery(ToText(["a"], map["a" := ["%25"]]), decode) == map["a" := ["%"]]
  {
    var m: Params := map["a" := ["%25"]];
    assert ["a"][..0] == [] && ["%25"][..0] == [];
    assert PairTexts(["a"], m) == PairTexts([], m) + KeyTexts("a", ["%25"]);
    assert PairTexts(["a"], m) == ["a=%25"] by { assert "a" + "=" + "%25" == "a=%25"; }
    SplitNone("a=%25", '&');
    assert "a" + ['='] + "%25" == "a=%25";
    SplitOnceFirst("a", "%25", '=');
    assert ["a=%25"][..0] == [];
    assert AddPieces(["a=%25"], decode) == AddPiece(map[], "a=%25", decode);
    assert Add(map[], "a", "%") == map["a" := ["%"]] by { assert [] + ["%"] == ["%"]; }
    assert ToText(["a"], m) == "a=%25";
  }
}
