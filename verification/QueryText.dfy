/**
 Query strings: splitting a text into parameters and printing parameters as a text. Percent-decoding is
 any function `decode` on texts.
 */
module QueryText {
  import opened Wrappers
  import opened MapOrders
  import opened Headers

  type Params = map<string, seq<string>>

  /** The pieces between separators; always at least one. */
  function Split(s: string, c: char): (pieces: seq<string>)
    ensures pieces != []
  {
    if s == "" then [""]
    else if s[0] == c then [""] + Split(s[1..], c)
    else var rest := Split(s[1..], c); [[s[0]] + rest[0]] + rest[1..]
  }

  function SplitOnce(s: string, c: char): Option<(string, string)> {
    if s == "" then None
    else if s[0] == c then Some(("", s[1..]))
    else match SplitOnce(s[1..], c)
         case Some((a, b)) => Some(([s[0]] + a, b))
         case None => None
  }

  function Add(m: Params, key: string, value: string): Params {
    m[key := (if key in m then m[key] else []) + [value]]
  }

  /** One piece of a query: ignored without `=`. */
  function AddPiece(m: Params, piece: string, decode: string -> string): Params {
    match SplitOnce(piece, '=')
    case Some((key, value)) => Add(m, decode(key), decode(value))
    case None => m
  }

  function AddPieces(pieces: seq<string>, decode: string -> string): Params {
    if pieces == [] then map[] else AddPiece(AddPieces(pieces[..|pieces| - 1], decode), pieces[|pieces| - 1], decode)
  }

  function FromQuery(q: string, decode: string -> string): Params {
    AddPieces(Split(q, '&'), decode)
  }

  function PairText(key: string, value: string): string {
    key + "=" + value
  }

  function KeyTexts(key: string, values: seq<string>): seq<string> {
    seq(|values|, i requires 0 <= i < |values| => PairText(key, values[i]))
  }

  /** The texts of all pairs, keys in this order. */
  function PairTexts(order: seq<string>, m: Params): seq<string>
    requires forall k :: k in order ==> k in m
  {
    if order == [] then [] else
      PairTexts(order[..|order| - 1], m) + KeyTexts(order[|order| - 1], m[order[|order| - 1]])
  }

  function ToText(order: seq<string>, m: Params): string
    requires forall k :: k in order ==> k in m
  {
    Join(PairTexts(order, m), "&")
  }

  ghost predicate NoEmptyLists(m: Params) {
    forall k :: k in m ==> m[k] != []
  }

  // Splitting what was joined.

  lemma {:induction false} SplitNone(s: string, c: char)
    requires c !in s
    ensures Split(s, c) == [s]
  {
    if s != "" {
      SplitNone(s[1..], c);
      assert [s[0]] + s[1..] == s;
    }
  }

  lemma {:induction false} SplitFirst(a: string, b: string, c: char)
    requires c !in a
    ensures Split(a + [c] + b, c) == [a] + Split(b, c)
  {
    var s := a + [c] + b;
    if a == "" {
      assert s == [c] + b && s[1..] == b;
    } else {
      assert s[1..] == a[1..] + [c] + b;
      SplitFirst(a[1..], b, c);
      assert ([a[1..]] + Split(b, c))[1..] == Split(b, c);
      assert [a[0]] + a[1..] == a;
    }
  }

  lemma {:induction false} SplitJoined(texts: seq<string>, c: char)
    requires texts != [] && forall t :: t in texts ==> c !in t
    ensures Split(Join(texts, [c]), c) == texts
  {
    assert texts[0] in texts;
    if |texts| == 1 {
      SplitNone(texts[0], c);
    } else {
      SplitJoined(texts[1..], c);
      SplitFirst(texts[0], Join(texts[1..], [c]), c);
      assert [texts[0]] + texts[1..] == texts;
    }
  }

  lemma {:induction false} SplitOnceFirst(a: string, b: string, c: char)
    requires c !in a
    ensures SplitOnce(a + [c] + b, c) == Some((a, b))
  {
    var s := a + [c] + b;
    if a == "" {
      assert s == [c] + b && s[1..] == b;
    } else {
      assert s[1..] == a[1..] + [c] + b;
      SplitOnceFirst(a[1..], b, c);
      assert [a[0]] + a[1..] == a;
    }
  }

  // Building the map again.

  /** Keys and values print in a way that the splitting undoes, and decoding leaves them alone. */
  predicate CleanKey(key: string, decode: string -> string) {
    '&' !in key && '=' !in key && decode(key) == key
  }

  predicate CleanValue(value: string, decode: string -> string) {
    '&' !in value && decode(value) == value
  }

  ghost predicate CleanParams(m: Params, decode: string -> string) {
    && (forall k :: k in m ==> CleanKey(k, decode))
    && (forall k, i :: k in m && 0 <= i < |m[k]| ==> CleanValue(m[k][i], decode))
  }

  lemma PieceReads(m: Params, key: string, value: string, decode: string -> string)
    requires CleanKey(key, decode) && CleanValue(value, decode)
    ensures AddPiece(m, PairText(key, value), decode) == Add(m, key, value)
  {
    SplitOnceFirst(key, value, '=');
    assert "=" == ['='];
  }

  lemma AddPiecesSnoc(pieces: seq<string>, piece: string, decode: string -> string)
    ensures AddPieces(pieces + [piece], decode) == AddPiece(AddPieces(pieces, decode), piece, decode)
  {
    assert (pieces + [piece])[..|pieces + [piece]| - 1] == pieces;
  }

  lemma {:induction false} KeyReads(before: seq<string>, key: string, values: seq<string>, decode: string -> string)
    requires CleanKey(key, decode) && forall i :: 0 <= i < |values| ==> CleanValue(values[i], decode)
    requires key !in AddPieces(before, decode)
    ensures AddPieces(before + KeyTexts(key, values), decode) ==
      if values == [] then AddPieces(before, decode) else AddPieces(before, decode)[key := values]
  {
    if values == [] {
      assert before + KeyTexts(key, values) == before;
    } else {
      var init, last := values[..|values| - 1], values[|values| - 1];
      KeyReads(before, key, init, decode);
      assert CleanValue(last, decode);
      hide PairText, CleanKey, CleanValue;
      NextText(before, key, values);
      AddPiecesSnoc(before + KeyTexts(key, init), PairText(key, last), decode);
      PieceReads(AddPieces(before + KeyTexts(key, init), decode), key, last, decode);
      AddLast(AddPieces(before, decode), key, values);
    }
  }

  lemma NextText(before: seq<string>, key: string, values: seq<string>)
    requires values != []
    ensures before + KeyTexts(key, values) ==
            before + KeyTexts(key, values[..|values| - 1]) + [PairText(key, values[|values| - 1])]
  {
  }

  lemma AddLast(m: Params, key: string, values: seq<string>)
    requires key !in m && values != []
    ensures var init := values[..|values| - 1];
      Add(if init == [] then m else m[key := init], key, values[|values| - 1]) == m[key := values]
  {
    assert values == values[..|values| - 1] + [values[|values| - 1]];
  }

  lemma {:induction false} OrderReads(order: seq<string>, m: Params, decode: string -> string)
    requires (forall k :: k in order ==> k in m) && NoDuplicates(order)
    requires CleanParams(m, decode) && NoEmptyLists(m)
    ensures AddPieces(PairTexts(order, m), decode) == map k | k in order :: m[k]
  {
    if order != [] {
      var init, last := order[..|order| - 1], order[|order| - 1];
      OrderReads(init, m, decode);
      assert last !in init;
      assert last in order && CleanKey(last, decode);
      KeyReads(PairTexts(init, m), last, m[last], decode);
      hide CleanKey, CleanValue, AddPieces, KeyTexts;
      assert forall k :: k in order <==> k in init || k == last by { assert order == init + [last]; }
    }
  }

  lemma {:induction false} PairTextsPlain(order: seq<string>, m: Params, decode: string -> string)
    requires (forall k :: k in order ==> k in m) && CleanParams(m, decode)
    ensures forall t :: t in PairTexts(order, m) ==> '&' !in t
  {
    if order != [] {
      PairTextsPlain(order[..|order| - 1], m, decode);
      var key := order[|order| - 1];
      forall t | t in KeyTexts(key, m[key]) ensures '&' !in t {
        var i :| 0 <= i < |m[key]| && t == PairText(key, m[key][i]);
        assert CleanValue(m[key][i], decode);
      }
    }
  }

  /** Printing and parsing give back the same parameters, values of a key in order, whatever the order
      the map is walked in. */
  lemma RoundTrip(order: seq<string>, m: Params, decode: string -> string)
    requires Enumerates(order, m) && NoEmptyLists(m) && CleanParams(m, decode)
    ensures FromQuery(ToText(order, m), decode) == m
  {
    var texts := PairTexts(order, m);
    OrderReads(order, m, decode);
    if texts == [] {
      assert Split("", '&') == [""];
      AddPiecesSnoc([], "", decode);
      assert [] + [""] == [""];
    } else {
      PairTextsPlain(order, m, decode);
      SplitJoined(texts, '&');
      assert "&" == ['&'];
    }
    assert (map k | k in order :: m[k]) == m;
  }

  // The other direction, for parameters without percent signs.

  lemma {:induction false} SplitPieces(s: string, c: char)
    ensures forall p :: p in Split(s, c) ==> c !in p && forall x :: x in p ==> x in s
  {
    if s != "" {
      SplitPieces(s[1..], c);
      assert forall x :: x in s[1..] ==> x in s;
      if s[0] != c {
        var rest := Split(s[1..], c);
        assert rest[0] in rest;
        assert forall p :: p in rest[1..] ==> p in rest;
      }
    }
  }

  lemma {:induction false} SplitOnceParts(s: string, c: char)
    ensures SplitOnce(s, c).Some? ==>
      var (a, b) := SplitOnce(s, c).value;
      c !in a && forall x :: x in a || x in b ==> x in s
  {
    if s != "" {
      SplitOnceParts(s[1..], c);
      assert forall x :: x in s[1..] ==> x in s;
    }
  }

  /** Decoding changes only texts with a percent sign. */
  ghost predicate DecodesPercentOnly(decode: string -> string) {
    forall s: string :: '%' !in s ==> decode(s) == s
  }

  ghost predicate ParsedForm(m: Params) {
    && (forall k :: k in m ==> '&' !in k && '=' !in k)
    && (forall k, i :: k in m && 0 <= i < |m[k]| ==> '&' !in m[k][i])
  }

  lemma {:induction false} ParsedIsClean(pieces: seq<string>, decode: string -> string)
    requires DecodesPercentOnly(decode)
    requires forall p :: p in pieces ==> '&' !in p && '%' !in p
    ensures ParsedForm(AddPieces(pieces, decode))
  {
    if pieces != [] {
      var piece := pieces[|pieces| - 1];
      ParsedIsClean(pieces[..|pieces| - 1], decode);
      SplitOnceParts(piece, '=');
      assert piece in pieces;
    }
  }

  ghost predicate NoPercent(m: Params) {
    && (forall k :: k in m ==> '%' !in k)
    && (forall k, i :: k in m && 0 <= i < |m[k]| ==> '%' !in m[k][i])
  }

  lemma {:induction false} TextsNoPercent(order: seq<string>, m: Params)
    requires (forall k :: k in order ==> k in m) && NoPercent(m)
    ensures forall t :: t in PairTexts(order, m) ==> '%' !in t
  {
    if order != [] {
      TextsNoPercent(order[..|order| - 1], m);
      var key := order[|order| - 1];
      forall t | t in KeyTexts(key, m[key]) ensures '%' !in t {
        var i :| 0 <= i < |m[key]| && t == PairText(key, m[key][i]);
      }
    }
  }

  lemma {:induction false} JoinedChars(texts: seq<string>, c: char)
    requires c != '&' && forall t :: t in texts ==> c !in t
    ensures c !in Join(texts, "&")
  {
    if texts != [] {
      assert texts[0] in texts;
      if |texts| > 1 {
        JoinedChars(texts[1..], c);
      }
    }
  }

  /** Parameters without percent signs survive printing and parsing exactly when no key holds `&` or `=`
      and no value holds `&`. */
  lemma RoundTripWithoutPercent(order: seq<string>, m: Params, decode: string -> string)
    requires Enumerates(order, m) && NoEmptyLists(m) && NoPercent(m) && DecodesPercentOnly(decode)
    ensures FromQuery(ToText(order, m), decode) == m <==> ParsedForm(m)
  {
    if ParsedForm(m) {
      assert CleanParams(m, decode);
      RoundTrip(order, m, decode);
    }
    TextsNoPercent(order, m);
    JoinedChars(PairTexts(order, m), '%');
    SplitPieces(ToText(order, m), '&');
    ParsedIsClean(Split(ToText(order, m), '&'), decode);
  }
}
