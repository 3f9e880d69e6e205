/** URLSearchParams as an object that its methods update. */
module SearchParams {
  import opened Wrappers
  import opened MapOrders
  import opened Headers
  import opened QueryText

  class NanoUrlSearchParams {
    var params: Params

    ghost predicate Valid()
      reads this
    {
      NoEmptyLists(params)
    }

    constructor FromQuery(query: Option<string>, decode: string -> string)
      ensures Valid()
      ensures params == match query case Some(q) => QueryText.FromQuery(q, decode) case None => map[]
    {
      var params := map[];
      if query.Some? {
        var pieces := Split(query.value, '&');
        for i := 0 to |pieces|
          invariant NoEmptyLists(params)
          invariant params == AddPieces(pieces[..i], decode)
        {
          assert pieces[..i + 1][..i] == pieces[..i];
          match SplitOnce(pieces[i], '=') {
            case Some((key, value)) =>
              var decodedKey, decodedValue := decode(key), decode(value);
              if decodedKey !in params {
                params := params[decodedKey := []];
              }
              params := params[decodedKey := params[decodedKey] + [decodedValue]];
            case None =>
          }
        }
        assert pieces[..|pieces|] == pieces;
      }
      this.params := params;
    }

    method Set(name: string, value: string)
      requires Valid()
      modifies this
      ensures Valid() && params == old(params)[name := [value]]
    {
      params := params[name := [value]];
    }

    method Append(name: string, value: string)
      requires Valid()
      modifies this
      ensures Valid() && params == Add(old(params), name, value)
    {
      if name !in params {
        params := params[name := []];
      }
      params := params[name := params[name] + [value]];
    }

    method Delete(name: string)
      requires Valid()
      modifies this
      ensures Valid() && params == old(params) - {name}
    {
      params := params - {name};
    }

    method Get(name: string) returns (r: Option<string>)
      requires Valid()
      ensures r == if name in params then Some(params[name][0]) else None
    {
      r := if name in params then Some(params[name][0]) else None;
    }

    /** The map is walked in an order of its own choosing. */
    method ToString(order: seq<string>) returns (text: string)
      requires Valid() && Enumerates(order, params)
      ensures text == ToText(order, params)
      ensures forall decode :: CleanParams(params, decode) ==> QueryText.FromQuery(text, decode) == params
    {
      var pairs := [];
      for i := 0 to |order|
        invariant pairs == PairTexts(order[..i], params)
      {
        var key := order[i];
        var values := params[key];
        assert order[..i + 1][..i] == order[..i];
        for j := 0 to |values|
          invariant pairs == PairTexts(order[..i], params) + KeyTexts(key, values[..j])
        {
          assert KeyTexts(key, values[..j + 1]) == KeyTexts(key, values[..j]) + [PairText(key, values[j])];
          pairs := pairs + [key + "=" + values[j]];
        }
        assert values[..|values|] == values;
      }
      assert order[..|order|] == order;
      text := Join(pairs, "&");
      forall decode | CleanParams(params, decode) ensures QueryText.FromQuery(text, decode) == params {
        RoundTrip(order, params, decode);
      }
    }
  }
}
