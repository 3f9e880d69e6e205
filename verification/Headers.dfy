/**
 HTTP headers kept under lowercase names. Lowercasing is any function `lower` on names.
 */
module Headers {
  function Join(values: seq<string>, separator: string): string {
    if values == [] then ""
    else if |values| == 1 then values[0]
    else values[0] + separator + Join(values[1..], separator)
  }

  const SET_COOKIE := "set-cookie"

  /** The single text that `for_each` passes on for a name. */
  function ForEachValue(name: string, values: seq<string>): string {
    if name == SET_COOKIE then (if values == [] then "" else values[0]) else Join(values, ", ")
  }

  /** The values with a comma and a space between them, built from the front. */
  function CommaText(values: seq<string>): string {
    if values == [] then "" else if |values| == 1 then values[0]
    else CommaText(values[..|values| - 1]) + ", " + values[|values| - 1]
  }

  /** Cookies pass on the first value only, every other header all of them. */
  ghost predicate Carries(name: string, values: seq<string>, text: string) {
    if name == "set-cookie" then values != [] ==> text == values[0] else text == CommaText(values)
  }

  lemma {:induction false} JoinSnoc(values: seq<string>, v: string, separator: string)
    ensures Join(values + [v], separator) == if values == [] then v else Join(values, separator) + separator + v
  {
    if |values| > 1 {
      JoinSnoc(values[1..], v, separator);
      assert (values + [v])[1..] == values[1..] + [v];
      FourParts(values[0], separator, Join(values[1..], separator), v);
    } else if |values| == 1 {
      assert (values + [v])[1..] == [v];
    }
  }

  lemma FourParts(a: string, s: string, b: string, v: string)
    ensures a + s + (b + s + v) == a + s + b + s + v
  {
  }

  lemma {:induction false} JoinIsCommaText(values: seq<string>)
    ensures Join(values, ", ") == CommaText(values)
  {
    if |values| > 1 {
      JoinIsCommaText(values[..|values| - 1]);
      JoinSnoc(values[..|values| - 1], values[|values| - 1], ", ");
      assert values[..|values| - 1] + [values[|values| - 1]] == values;
    }
  }

  /** for_each passes on this text. */
  lemma ForEachCarries(name: string, values: seq<string>)
    ensures Carries(name, values, ForEachValue(name, values))
  {
    JoinIsCommaText(values);
  }

  class NanoHeaders {
    const lower: string -> string
    var headers: map<string, seq<string>>

    /** Every name has at least one value. */
    ghost predicate Valid()
      reads this
    {
      forall name :: name in headers ==> headers[name] != []
    }

    constructor (lower: string -> string)
      ensures Valid() && headers == map[] && this.lower == lower
    {
      this.lower := lower;
      headers := map[];
    }

    method Set(name: string, value: string)
      requires Valid()
      modifies this
      ensures Valid() && headers == old(headers)[lower(name) := [value]]
    {
      headers := headers[lower(name) := [value]];
    }

    method Append(name: string, value: string)
      requires Valid()
      modifies this
      ensures Valid()
      ensures headers == old(headers)[lower(name) :=
                (if lower(name) in old(headers) then old(headers)[lower(name)] else []) + [value]]
    {
      var key := lower(name);
      if key !in headers {
        headers := headers[key := []];
      }
      headers := headers[key := headers[key] + [value]];
    }

    method Delete(name: string)
      requires Valid()
      modifies this
      ensures Valid() && headers == old(headers) - {lower(name)}
    {
      headers := headers - {lower(name)};
    }

    method Get(name: string) returns (found: bool, value: string)
      requires Valid()
      ensures found == (lower(name) in headers)
      ensures found ==> value == ForEachValue(lower(name), headers[lower(name)])
      ensures found ==> Carries(lower(name), headers[lower(name)], value)
    {
      var key := lower(name);
      found, value := key in headers, "";
      if found {
        ForEachCarries(key, headers[key]);
        value := if key == SET_COOKIE then headers[key][0] else Join(headers[key], ", ");
      }
    }
  }
}
