/**
 * Request URL formatting: `uri` for a request without options and
 * `uri_optioned` for a request carrying an options map. Coordinates arrive
 * already rendered as text. The map's iteration order is unspecified, so
 * `uri_optioned` takes it as a parameter `order`: any sequence visiting each
 * key exactly once. Keys and values are copied verbatim, with no escaping.
 */
module Utils {
  import opened Wrappers
  import Text
  import Tokens
  import OptionsBuilder

  /** The error kinds URL formatting can raise: only a failed write into the text buffer. */
  datatype Error = Fmt

  /** The base of every request URL. */
  const ApiUrl: string := "https://api.darksky.net"

  /** Everything before the `?`: base URL, token and the two coordinates. */
  function Path(token: string, lat: string, long: string): string
  {
    ApiUrl + "/forecast/" + token + "/" + lat + "," + long
  }

  /** `uri(token, lat, long)`: the request URL without options, fixed to automatic units. */
  function Uri(token: string, lat: string, long: string): (r: string)
    ensures Path(token, lat, long) + "?" <= r
    ensures Text.EndsWith(r, "?units=auto")
    ensures r[|r| - 1] != '&'
  {
    Path(token, lat, long) + "?units=auto"
  }

  /** `order` visits every key of `m` exactly once: a possible iteration order of the map. */
  ghost predicate Enumerates(order: seq<string>, m: map<string, string>)
  {
    Text.Distinct(order) && forall k :: k in order <==> k in m
  }

  /** The query text one map entry contributes. */
  function Group(k: string, v: string): string
  {
    k + "=" + v + "&"
  }

  /** The query text for the entries of `m`, visited in `order`. */
  function Query(m: map<string, string>, order: seq<string>): string
    requires forall i :: 0 <= i < |order| ==> order[i] in m
  {
    if |order| == 0 then ""
    else Group(order[0], m[order[0]]) + Query(m, order[1..])
  }

  /** The summed length of the groups of the entries visited in `order`. */
  function Weight(m: map<string, string>, order: seq<string>): nat
    requires forall i :: 0 <= i < |order| ==> order[i] in m
  {
    if |order| == 0 then 0
    else |order[0]| + |m[order[0]]| + 2 + Weight(m, order[1..])
  }

  /**
   * `uri_optioned(token, lat, long, options)`: the path, `?`, then `key=value&`
   * for every entry in iteration order, the last `&` kept. It never adds
   * `units=auto` itself. Formatting the coordinates is the only step that could
   * fail, and with rendered text it cannot, so the result is always `Ok`.
   */
  function UriOptioned(token: string, lat: string, long: string,
                       options: map<string, string>, order: seq<string>): (r: Result<string, Error>)
    requires Enumerates(order, options)
    ensures r.Ok?
    ensures Path(token, lat, long) + "?" <= r.value
    ensures r.value[|r.value| - 1] == if |options| == 0 then '?' else '&'
    ensures |r.value| == |Path(token, lat, long)| + 1 + Weight(options, order)
    ensures forall k :: k in options ==>
              Text.Occurs(Group(k, options[k]), r.value[|Path(token, lat, long)| + 1..])
  {
    var prefix := Path(token, lat, long) + "?";
    var query := Query(options, order);
    var url := prefix + query;
    EnumerationEmpty(order, options);
    QueryEnd(options, order);
    QueryLength(options, order);
    assert url[|prefix|..] == query;
    forall k | k in options
      ensures Text.Occurs(Group(k, options[k]), query)
    {
      var j :| 0 <= j < |order| && order[j] == k;
      QueryHasGroup(options, order, j);
    }
    Ok(url)
  }

  /**
   * The same URL built the way the Rust `uri_optioned` builds it: pushing onto
   * a growing buffer, one entry per loop iteration.
   */
  method FormatUriOptioned(token: string, lat: string, long: string,
                           options: map<string, string>, order: seq<string>)
    returns (r: Result<string, Error>)
    requires Enumerates(order, options)
    ensures r == UriOptioned(token, lat, long, options, order)
  {
    var uri := "";
    uri := uri + ApiUrl;
    uri := uri + "/forecast/";
    uri := uri + token;
    uri := uri + "/";
    uri := uri + lat;
    uri := uri + ",";
    uri := uri + long;
    uri := uri + "?";
    assert uri == Path(token, lat, long) + "?";
    var i := 0;
    while i < |order|
      invariant 0 <= i <= |order|
      invariant uri == Path(token, lat, long) + "?" + Query(options, order[..i])
    {
      var k := order[i];
      ghost var before := uri;
      uri := uri + k;
      uri := uri + "=";
      uri := uri + options[k];
      uri := uri + "&";
      assert uri == before + Group(k, options[k]);
      assert Query(options, [k]) == Group(k, options[k]);
      QueryAppend(options, order[..i], [k]);
      assert order[..i + 1] == order[..i] + [k];
      assert uri == Path(token, lat, long) + "?" + Query(options, order[..i + 1]);
      i := i + 1;
    }
    assert order[..|order|] == order;
    assert uri == Path(token, lat, long) + "?" + Query(options, order);
    return Ok(uri);
  }

  /** Every map has an iteration order: the requirement on `order` excludes no map. */
  lemma {:induction false} EnumerationExists(m: map<string, string>)
    ensures exists order :: Enumerates(order, m)
    decreases |m|
  {
    if |m| == 0 {
      assert m.Keys == {};
      assert Enumerates([], m);
    } else {
      var k :| k in m;
      var rest := m - {k};
      assert |rest| < |m| by {
        assert rest.Keys == m.Keys - {k};
      }
      EnumerationExists(rest);
      var tail :| Enumerates(tail, rest);
      var order := [k] + tail;
      assert k !in tail;
      assert forall x :: x in order <==> x == k || x in tail;
      assert Enumerates(order, m);
    }
  }

  /** An enumeration is empty exactly when the map is. */
  lemma EnumerationEmpty(order: seq<string>, m: map<string, string>)
    requires Enumerates(order, m)
    ensures |order| == 0 <==> |m| == 0
  {
    if |order| == 0 {
      assert m.Keys == {};
    } else {
      assert order[0] in m;
    }
  }

  /** The query length is the summed length of its groups. */
  lemma {:induction false} QueryLength(m: map<string, string>, order: seq<string>)
    requires forall i :: 0 <= i < |order| ==> order[i] in m
    ensures |Query(m, order)| == Weight(m, order)
  {
    if |order| > 0 {
      QueryLength(m, order[1..]);
    }
  }

  /** A non-empty query ends in `&`. */
  lemma {:induction false} QueryEnd(m: map<string, string>, order: seq<string>)
    requires forall i :: 0 <= i < |order| ==> order[i] in m
    ensures |order| > 0 ==> |Query(m, order)| > 0 && Query(m, order)[|Query(m, order)| - 1] == '&'
  {
    if |order| > 1 {
      QueryEnd(m, order[1..]);
    }
  }

  /** The query of a concatenated order is the concatenation of the queries. */
  lemma {:induction false} QueryAppend(m: map<string, string>, a: seq<string>, b: seq<string>)
    requires forall i :: 0 <= i < |a| ==> a[i] in m
    requires forall i :: 0 <= i < |b| ==> b[i] in m
    ensures Query(m, a + b) == Query(m, a) + Query(m, b)
  {
    if |a| > 0 {
      assert (a + b)[1..] == a[1..] + b;
      QueryAppend(m, a[1..], b);
    } else {
      assert a + b == b;
    }
  }

  /** The entry visited at position `j` contributes its group verbatim. */
  lemma QueryHasGroup(m: map<string, string>, order: seq<string>, j: nat)
    requires forall i :: 0 <= i < |order| ==> order[i] in m
    requires j < |order|
    ensures Text.Occurs(Group(order[j], m[order[j]]), Query(m, order))
  {
    var before, here, after := order[..j], order[j..j + 1], order[j + 1..];
    assert forall i :: 0 <= i < |before| ==> before[i] == order[i];
    assert forall i :: 0 <= i < |after| ==> after[i] == order[j + 1 + i];
    assert here == [order[j]];
    assert order == before + here + after;
    QueryAppend(m, before, here);
    QueryAppend(m, before + here, after);
    var g := Group(order[j], m[order[j]]);
    assert Query(m, here) == g;
    var q := Query(m, order);
    assert q == Query(m, before) + g + Query(m, after);
    assert Text.OccursAt(g, q, |Query(m, before)|);
  }

  /** Removing the entry at position `i` takes its group's length off the total. */
  lemma {:induction false} WeightRemove(m: map<string, string>, order: seq<string>, i: nat)
    requires forall j :: 0 <= j < |order| ==> order[j] in m
    requires i < |order|
    ensures Weight(m, order) == |order[i]| + |m[order[i]]| + 2 + Weight(m, order[..i] + order[i + 1..])
  {
    if i > 0 {
      WeightRemove(m, order[1..], i - 1);
      assert order[1..][..i - 1] + order[1..][i..] == (order[..i] + order[i + 1..])[1..];
    } else {
      assert order[..0] + order[1..] == order[1..];
    }
  }

  /** A non-empty sequence has its first element as a member. */
  lemma HeadIsMember(o: seq<string>)
    ensures |o| > 0 ==> o[0] in o
  {
  }

  /** Removing position `i` from a duplicate-free order removes exactly that key. */
  lemma RemoveAt(o: seq<string>, i: nat)
    requires Text.Distinct(o) && i < |o|
    ensures Text.Distinct(o[..i] + o[i + 1..])
    ensures forall x :: x in o[..i] + o[i + 1..] <==> x in o && x != o[i]
  {
    var rest := o[..i] + o[i + 1..];
    assert |rest| == |o| - 1;
    assert forall a :: 0 <= a < |rest| ==> rest[a] == o[if a < i then a else a + 1];
    forall x | x in o && x != o[i]
      ensures x in rest
    {
      var q :| 0 <= q < |o| && o[q] == x;
      assert rest[if q < i then q else q - 1] == x;
    }
  }

  /** Two orders visiting the same keys once each give the same total length. */
  lemma {:induction false} WeightOrderFree(m: map<string, string>, o1: seq<string>, o2: seq<string>)
    requires forall i :: 0 <= i < |o1| ==> o1[i] in m
    requires forall i :: 0 <= i < |o2| ==> o2[i] in m
    requires Text.Distinct(o1) && Text.Distinct(o2)
    requires forall k :: k in o1 <==> k in o2
    ensures Weight(m, o1) == Weight(m, o2)
    decreases |o1|
  {
    if |o1| == 0 {
      HeadIsMember(o2);
    } else {
      var k := o1[0];
      assert k in o2;
      var i :| 0 <= i < |o2| && o2[i] == k;
      var rest2 := o2[..i] + o2[i + 1..];
      WeightRemove(m, o2, i);
      RemoveAt(o2, i);
      RemoveAt(o1, 0);
      assert o1[..0] + o1[1..] == o1[1..];
      forall x
        ensures x in o1[1..] <==> x in rest2
      {
        assert x in o1[1..] <==> x in o1 && x != k;
        assert x in rest2 <==> x in o2 && x != k;
      }
      WeightOrderFree(m, o1[1..], rest2);
    }
  }

  /** The length of an options URL does not depend on the map's iteration order. */
  lemma UriOptionedLengthOrderFree(token: string, lat: string, long: string,
                                   options: map<string, string>, o1: seq<string>, o2: seq<string>)
    requires Enumerates(o1, options) && Enumerates(o2, options)
    ensures |UriOptioned(token, lat, long, options, o1).value| == |UriOptioned(token, lat, long, options, o2).value|
  {
    WeightOrderFree(options, o1, o2);
  }

  /** No key contains `=` or `&` and no value contains `&`: the query can be read back unambiguously. */
  ghost predicate Unambiguous(m: map<string, string>)
  {
    forall k :: k in m ==> '=' !in k && '&' !in k && '&' !in m[k]
  }

  /** The entries of `m` as key/value pairs, in `order`. */
  function Pairs(m: map<string, string>, order: seq<string>): (ps: seq<(string, string)>)
    requires forall i :: 0 <= i < |order| ==> order[i] in m
    ensures |ps| == |order|
    ensures forall i :: 0 <= i < |order| ==> ps[i] == (order[i], m[order[i]])
  {
    if |order| == 0 then []
    else [(order[0], m[order[0]])] + Pairs(m, order[1..])
  }

  /**
   * Reads a query written as `key=value&` groups back into its pairs: each
   * group ends at the next `&` and its key at the group's first `=`. `None`
   * when a group lacks its `&` or its `=`.
   */
  function ParseQuery(q: string): Option<seq<(string, string)>>
    decreases |q|
  {
    if |q| == 0 then Some([])
    else
      var amp := Text.FirstIndex(q, '&');
      if amp == |q| then None
      else
        var group := q[..amp];
        var eq := Text.FirstIndex(group, '=');
        if eq == |group| then None
        else
          match ParseQuery(q[amp + 1..])
          case None => None
          case Some(rest) => Some([(group[..eq], group[eq + 1..])] + rest)
  }

  /** One group followed by more query text reads back as its pair followed by the rest. */
  lemma ParseGroup(k: string, v: string, rest: string)
    requires '=' !in k && '&' !in k && '&' !in v
    ensures ParseQuery(Group(k, v) + rest) ==
              match ParseQuery(rest)
              case None => None
              case Some(ps) => Some([(k, v)] + ps)
  {
    var kv := k + "=" + v;
    var q := kv + "&" + rest;
    assert Group(k, v) + rest == q;
    assert '&' !in kv;
    Text.FirstIndexAfter(kv, '&', rest);
    assert q[..|kv|] == kv;
    assert q[|kv| + 1..] == rest;
    Text.FirstIndexAfter(k, '=', v);
    assert kv[..|k|] == k;
    assert kv[|k| + 1..] == v;
  }

  /** The query of an unambiguous map reads back as its entries, in the order they were written. */
  lemma {:induction false} QueryRoundTrip(m: map<string, string>, order: seq<string>)
    requires forall i :: 0 <= i < |order| ==> order[i] in m
    requires Unambiguous(m)
    ensures ParseQuery(Query(m, order)) == Some(Pairs(m, order))
  {
    if |order| > 0 {
      var k := order[0];
      ParseGroup(k, m[k], Query(m, order[1..]));
      QueryRoundTrip(m, order[1..]);
    }
  }

  /**
   * Whatever the iteration order, reading back the query of an unambiguous
   * map yields every entry of the map exactly once and nothing else.
   */
  lemma QueryDecodesToOptions(m: map<string, string>, order: seq<string>)
    requires Enumerates(order, m) && Unambiguous(m)
    ensures ParseQuery(Query(m, order)).Some?
    ensures var ps := ParseQuery(Query(m, order)).value;
              && (forall k :: k in m <==> exists i :: 0 <= i < |ps| && ps[i].0 == k)
              && (forall i :: 0 <= i < |ps| ==> ps[i].0 in m && ps[i].1 == m[ps[i].0])
              && (forall i, j :: 0 <= i < j < |ps| ==> ps[i].0 != ps[j].0)
  {
    QueryRoundTrip(m, order);
    var ps := Pairs(m, order);
    forall k | k in m
      ensures exists i :: 0 <= i < |ps| && ps[i].0 == k
    {
      var i :| 0 <= i < |order| && order[i] == k;
      assert ps[i].0 == k;
    }
  }

  /**
   * `uri_optioned` asks for `units` only when the options set it: on an
   * unambiguous map the query carries a `units` pair exactly when the map
   * has that key.
   */
  lemma UnitsOnlyWhenSet(m: map<string, string>, order: seq<string>)
    requires Enumerates(order, m) && Unambiguous(m)
    ensures ParseQuery(Query(m, order)).Some?
    ensures var ps := ParseQuery(Query(m, order)).value;
              (exists i :: 0 <= i < |ps| && ps[i].0 == OptionsBuilder.UnitsKey) <==> OptionsBuilder.UnitsKey in m
  {
    QueryDecodesToOptions(m, order);
  }

  /**
   * Values are copied without escaping: a raw value holding `&` gives the
   * same query as two separate entries, so the text alone cannot tell them apart.
   */
  lemma RawValuesAreNotEscaped()
    ensures var one, two := map["a" := "1&b=2"], map["a" := "1", "b" := "2"];
              && one != two
              && Query(one, ["a"]) == Query(two, ["a", "b"])
  {
    var one, two := map["a" := "1&b=2"], map["a" := "1", "b" := "2"];
    assert "b" in two && "b" !in one;
  }

  /**
   * A raw insert into an unambiguous map keeps it unambiguous exactly when the
   * key holds no `=` or `&` and the value no `&`.
   */
  lemma InsertKeepsUnambiguous(o: OptionsBuilder.Options, k: string, v: string)
    requires Unambiguous(o.inner)
    ensures Unambiguous(OptionsBuilder.Insert(o, k, v).inner) <==> ('=' !in k && '&' !in k && '&' !in v)
  {
  }

  /** `exclude` keeps an unambiguous map unambiguous: block tokens and commas hold no `&`. */
  lemma ExcludeKeepsUnambiguous(o: OptionsBuilder.Options, bs: seq<Tokens.Block>)
    requires Unambiguous(o.inner)
    ensures Unambiguous(OptionsBuilder.Exclude(o, bs).inner)
  {
    OptionsBuilder.BlockNamesSafe(bs);
    Text.JoinAvoids(Tokens.BlockNames(bs), ',', '&');
    InsertKeepsUnambiguous(o, OptionsBuilder.ExcludeKey, OptionsBuilder.ExcludeValue(bs));
  }

  /** `language` keeps an unambiguous map unambiguous. */
  lemma LanguageKeepsUnambiguous(o: OptionsBuilder.Options, l: Tokens.Language)
    requires Unambiguous(o.inner)
    ensures Unambiguous(OptionsBuilder.Language(o, l).inner)
  {
    var v := Tokens.LanguageName(l);
    Tokens.LanguageNameSafe(l);
    InsertKeepsUnambiguous(o, OptionsBuilder.LangKey, v);
    assert OptionsBuilder.Language(o, l) == OptionsBuilder.Insert(o, OptionsBuilder.LangKey, v);
  }

  /** `unit` keeps an unambiguous map unambiguous. */
  lemma UnitKeepsUnambiguous(o: OptionsBuilder.Options, u: Tokens.Unit)
    requires Unambiguous(o.inner)
    ensures Unambiguous(OptionsBuilder.Unit(o, u).inner)
  {
    var v := Tokens.UnitName(u);
    Tokens.UnitNameSafe(u);
    InsertKeepsUnambiguous(o, OptionsBuilder.UnitsKey, v);
    assert OptionsBuilder.Unit(o, u) == OptionsBuilder.Insert(o, OptionsBuilder.UnitsKey, v);
  }

  /**
   * The default builder is unambiguous and each of the four builder calls keeps
   * an unambiguous map unambiguous, so any chain of them from the default is.
   */
  lemma BuilderKeepsUnambiguous(o: OptionsBuilder.Options, bs: seq<Tokens.Block>,
                                l: Tokens.Language, u: Tokens.Unit)
    requires Unambiguous(o.inner)
    ensures Unambiguous(OptionsBuilder.Default().inner)
    ensures Unambiguous(OptionsBuilder.Exclude(o, bs).inner)
    ensures Unambiguous(OptionsBuilder.ExtendHourly(o).inner)
    ensures Unambiguous(OptionsBuilder.Language(o, l).inner)
    ensures Unambiguous(OptionsBuilder.Unit(o, u).inner)
  {
    ExcludeKeepsUnambiguous(o, bs);
    InsertKeepsUnambiguous(o, OptionsBuilder.ExtendKey, "hourly");
    LanguageKeepsUnambiguous(o, l);
    UnitKeepsUnambiguous(o, u);
  }

  /** `uri` is `uri_optioned` with the single entry `units=auto`, minus the final `&`. */
  lemma UriIsAutoUnitsOptioned(token: string, lat: string, long: string)
    ensures var m := map[OptionsBuilder.UnitsKey := "auto"];
              Enumerates([OptionsBuilder.UnitsKey], m) &&
              UriOptioned(token, lat, long, m, [OptionsBuilder.UnitsKey]).value == Uri(token, lat, long) + "&"
  {
    var path := Path(token, lat, long);
    assert Enumerates(["units"], map["units" := "auto"]);
    UriOptionedSingle(token, lat, long, "units", "auto", ["units"]);
    assert Group("units", "auto") == "units=auto&";
    assert path + "?" + "units=auto&" == path + "?units=auto" + "&";
  }

  /**
   * When neither the token nor the coordinates contain `?`, the query of
   * either URL starts right after the URL's first `?`.
   */
  lemma QueryStartsAtFirstMark(token: string, lat: string, long: string,
                               options: map<string, string>, order: seq<string>)
    requires '?' !in token && '?' !in lat && '?' !in long
    requires Enumerates(order, options)
    ensures Text.FirstIndex(Uri(token, lat, long), '?') == |Path(token, lat, long)|
    ensures Text.FirstIndex(UriOptioned(token, lat, long, options, order).value, '?') == |Path(token, lat, long)|
  {
    var path := Path(token, lat, long);
    assert '?' !in ApiUrl + "/forecast/";
    assert '?' !in path;
    Text.FirstIndexAfter(path, '?', "units=auto");
    Text.FirstIndexAfter(path, '?', Query(options, order));
  }

  /** `uri("abc", -7.3, 8.17)` example. */
  lemma UriExample()
    ensures Uri("abc", "-7.3", "8.17") == "https://api.darksky.net/forecast/abc/-7.3,8.17?units=auto"
  {
  }

  /** A duplicate-free sequence has as many elements as it has members. */
  lemma {:induction false} DistinctCard(o: seq<string>)
    requires Text.Distinct(o)
    ensures |set x | x in o| == |o|
  {
    if |o| > 0 {
      var rest := o[1..];
      assert Text.Distinct(rest);
      DistinctCard(rest);
      assert o[0] !in rest;
      assert (set x | x in o) == {o[0]} + (set x | x in rest);
    }
  }

  /** An iteration order has one position per entry: `N` entries give `N` groups. */
  lemma EnumerationLength(order: seq<string>, m: map<string, string>)
    requires Enumerates(order, m)
    ensures |order| == |m|
  {
    DistinctCard(order);
    assert (set x | x in order) == m.Keys;
  }

  /** A map with one key has exactly one iteration order. */
  lemma SingleKeyOrder(order: seq<string>, k: string, v: string)
    requires Enumerates(order, map[k := v])
    ensures order == [k]
  {
    EnumerationLength(order, map[k := v]);
    assert order[0] in map[k := v];
  }

  /** With a one-entry map the options URL is the path, `?` and that entry's group. */
  lemma UriOptionedSingle(token: string, lat: string, long: string, k: string, v: string, order: seq<string>)
    requires Enumerates(order, map[k := v])
    ensures UriOptioned(token, lat, long, map[k := v], order) == Ok(Path(token, lat, long) + "?" + Group(k, v))
  {
    SingleKeyOrder(order, k, v);
    assert Query(map[k := v], order) == Group(k, v);
  }

  /** The text of the `uri_optioned` example URL, assembled from its parts. */
  lemma UriOptionedExampleText()
    ensures Path("def", "-4.13", "14.32") + "?" + Group("exclude", "hourly")
            == "https://api.darksky.net/forecast/def/-4.13,14.32?exclude=hourly&"
  {
  }

  /**
   * `uri_optioned("def", -4.13, 14.32, ...)` example after excluding `Hourly`:
   * the one-entry map has a single iteration order and gives one URL.
   */
  lemma UriOptionedExample(order: seq<string>)
    requires Enumerates(order, OptionsBuilder.IntoInner(OptionsBuilder.Exclude(OptionsBuilder.Default(), [Tokens.Hourly])))
    ensures UriOptioned("def", "-4.13", "14.32",
                        OptionsBuilder.IntoInner(OptionsBuilder.Exclude(OptionsBuilder.Default(), [Tokens.Hourly])), order)
            == Ok("https://api.darksky.net/forecast/def/-4.13,14.32?exclude=hourly&")
  {
    UriOptionedExampleText();
    OptionsBuilder.ExcludeHourlyMap();
    UriOptionedSingle("def", "-4.13", "14.32", "exclude", "hourly", order);
  }
}
