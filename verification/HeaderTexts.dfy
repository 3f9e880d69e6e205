/** The values of one header are recovered from the text that stands for them. */
module HeaderTexts {
  import opened Headers
  import opened QueryText

  /** The values that a text without cookies stands for: the first as it is, the others with a space in front. */
  function Spaced(values: seq<string>): seq<string> {
    seq(|values|, i requires 0 <= i < |values| => if i == 0 then values[0] else " " + values[i])
  }

  lemma {:induction false} CommaTextIsJoined(values: seq<string>)
    requires values != []
    ensures CommaText(values) == Join(Spaced(values), ",")
  {
    if |values| > 1 {
      var init, last := values[..|values| - 1], values[|values| - 1];
      CommaTextIsJoined(init);
      assert Spaced(values) == Spaced(init) + [" " + last];
      JoinSnoc(Spaced(init), " " + last, ",");
      assert CommaText(init) + ", " + last == CommaText(init) + "," + (" " + last);
    }
  }

  /** Values without commas are recovered from the text by splitting it at the commas. */
  lemma ValuesAreRecovered(name: string, values: seq<string>)
    requires name != "set-cookie" && values != [] && forall v :: v in values ==> ',' !in v
    ensures Split(ForEachValue(name, values), ',') == Spaced(values)
  {
    ForEachCarries(name, values);
    CommaTextIsJoined(values);
    var texts := Spaced(values);
    forall t | t in texts ensures ',' !in t {
      var i :| 0 <= i < |texts| && texts[i] == t;
      assert values[i] in values;
    }
    SplitJoined(texts, ',');
    assert "," == [','];
  }
}
