/**
 * The `Options` builder: a string-keyed map of query parameters, changed one
 * fixed key at a time by chained calls. Every mutator is the map's `insert`,
 * so a later call on the same key replaces the earlier value.
 */
module OptionsBuilder {
  import opened Wrappers
  import Text
  import Tokens

  const ExcludeKey: string := "exclude"
  const ExtendKey: string := "extend"
  const LangKey: string := "lang"
  const UnitsKey: string := "units"

  /** The builder wraps the map that is later turned into the query string. */
  datatype Options = Options(inner: map<string, string>)

  /** `after` is `before` with `key` present and every other entry untouched. */
  ghost predicate Overwrites(before: map<string, string>, after: map<string, string>, key: string)
  {
    && after.Keys == before.Keys + {key}
    && forall k :: k in before && k != key ==> after[k] == before[k]
  }

  /** The empty builder `Options::default()`. */
  function Default(): (o: Options)
    ensures |o.inner| == 0
  {
    Options(map[])
  }

  /**
   * `key` set to `value`, the map's `insert`: what every mutator does, and
   * what a caller does through the map reference `get_mut` hands out.
   */
  function Insert(o: Options, key: string, value: string): (r: Options)
    ensures Overwrites(o.inner, r.inner, key) && r.inner[key] == value
    ensures |r.inner| == if key in o.inner then |o.inner| else |o.inner| + 1
  {
    var m := o.inner[key := value];
    assert key !in o.inner ==> m.Keys == o.inner.Keys + {key};
    assert key in o.inner ==> m.Keys == o.inner.Keys;
    Options(m)
  }

  /** The value `exclude` stores: the block tokens joined by commas, in order. */
  function ExcludeValue(bs: seq<Tokens.Block>): string
  {
    Text.Join(Tokens.BlockNames(bs), ',')
  }

  /** Every block token is comma-free, non-empty and free of URL delimiters. */
  lemma BlockNamesSafe(bs: seq<Tokens.Block>)
    ensures forall i :: 0 <= i < |bs| ==> |Tokens.BlockNames(bs)[i]| > 0
    ensures forall i :: 0 <= i < |bs| ==> Tokens.Safe(Tokens.BlockNames(bs)[i])
  {
    forall i | 0 <= i < |bs|
      ensures |Tokens.BlockNames(bs)[i]| > 0 && Tokens.Safe(Tokens.BlockNames(bs)[i])
    {
      Tokens.BlockNameSafe(bs[i]);
    }
  }

  /**
   * `exclude(blocks)`: sets `exclude` to the comma-joined block tokens. An
   * empty list still inserts the key, with the empty value, and only an empty
   * list stores the empty value.
   */
  function Exclude(o: Options, bs: seq<Tokens.Block>): (r: Options)
    ensures Overwrites(o.inner, r.inner, ExcludeKey)
    ensures r.inner[ExcludeKey] == "" <==> |bs| == 0
  {
    BlockNamesSafe(bs);
    Text.JoinEmpty(Tokens.BlockNames(bs), ',');
    Insert(o, ExcludeKey, ExcludeValue(bs))
  }

  /** `extend_hourly()`: sets `extend` to `hourly`, the only extend mode. */
  function ExtendHourly(o: Options): (r: Options)
    ensures Overwrites(o.inner, r.inner, ExtendKey) && r.inner[ExtendKey] == "hourly"
  {
    Insert(o, ExtendKey, "hourly")
  }

  /** `language(l)`: sets `lang` to a token that reads back as `l`. */
  function Language(o: Options, l: Tokens.Language): (r: Options)
    ensures Overwrites(o.inner, r.inner, LangKey)
    ensures Tokens.ParseLanguage(r.inner[LangKey]) == Some(l)
  {
    Tokens.LanguageRoundTrip(l);
    Insert(o, LangKey, Tokens.LanguageName(l))
  }

  /** `unit(u)`: sets `units` to a token that reads back as `u`. */
  function Unit(o: Options, u: Tokens.Unit): (r: Options)
    ensures Overwrites(o.inner, r.inner, UnitsKey)
    ensures Tokens.ParseUnit(r.inner[UnitsKey]) == Some(u)
  {
    Tokens.UnitRoundTrip(u);
    Insert(o, UnitsKey, Tokens.UnitName(u))
  }

  /** `get_ref()`: read access to the underlying map. */
  function GetRef(o: Options): map<string, string>
  {
    o.inner
  }

  /** `into_inner()`: the underlying map, consuming the builder. */
  function IntoInner(o: Options): map<string, string>
  {
    o.inner
  }

  /** Splitting the stored `exclude` value on commas gives back the block tokens, in order. */
  lemma ExcludeSplitsBack(o: Options, bs: seq<Tokens.Block>)
    requires |bs| > 0
    ensures Text.Split(Exclude(o, bs).inner[ExcludeKey], ',') == Tokens.BlockNames(bs)
  {
    BlockNamesSafe(bs);
    Text.SplitJoin(Tokens.BlockNames(bs), ',');
  }

  /** Different block lists store different `exclude` values. */
  lemma ExcludeValueInjective(a: seq<Tokens.Block>, b: seq<Tokens.Block>)
    ensures ExcludeValue(a) == ExcludeValue(b) ==> a == b
  {
    if ExcludeValue(a) == ExcludeValue(b) {
      BlockNamesSafe(a);
      BlockNamesSafe(b);
      Text.JoinEmpty(Tokens.BlockNames(a), ',');
      Text.JoinEmpty(Tokens.BlockNames(b), ',');
      if |a| > 0 && |b| > 0 {
        Text.SplitJoin(Tokens.BlockNames(a), ',');
        Text.SplitJoin(Tokens.BlockNames(b), ',');
        Tokens.BlockNamesInjective(a, b);
      }
    }
  }

  /** A second insert on the same key replaces the first. */
  lemma InsertLastWriteWins(o: Options, key: string, v1: string, v2: string)
    ensures Insert(Insert(o, key, v1), key, v2) == Insert(o, key, v2)
  {
  }

  /** Inserts on different keys commute. */
  lemma InsertCommutes(o: Options, k1: string, v1: string, k2: string, v2: string)
    requires k1 != k2
    ensures Insert(Insert(o, k1, v1), k2, v2) == Insert(Insert(o, k2, v2), k1, v1)
  {
    var a := o.inner[k1 := v1][k2 := v2];
    var b := o.inner[k2 := v2][k1 := v1];
    assert a.Keys == b.Keys;
    assert forall k | k in a :: a[k] == b[k];
    assert a == b;
  }

  /** Repeated calls of one mutator replace the value rather than accumulate. */
  lemma MutatorsLastWriteWins(o: Options, a: seq<Tokens.Block>, b: seq<Tokens.Block>,
                              l1: Tokens.Language, l2: Tokens.Language, u1: Tokens.Unit, u2: Tokens.Unit)
    ensures Exclude(Exclude(o, a), b) == Exclude(o, b)
    ensures ExtendHourly(ExtendHourly(o)) == ExtendHourly(o)
    ensures Language(Language(o, l1), l2) == Language(o, l2)
    ensures Unit(Unit(o, u1), u2) == Unit(o, u2)
  {
    InsertLastWriteWins(o, ExcludeKey, ExcludeValue(a), ExcludeValue(b));
    InsertLastWriteWins(o, ExtendKey, "hourly", "hourly");
    InsertLastWriteWins(o, LangKey, Tokens.LanguageName(l1), Tokens.LanguageName(l2));
    InsertLastWriteWins(o, UnitsKey, Tokens.UnitName(u1), Tokens.UnitName(u2));
  }

  /** The four mutators write different keys, so the order of a chain does not matter. */
  lemma MutatorsCommute(o: Options, bs: seq<Tokens.Block>, l: Tokens.Language, u: Tokens.Unit)
    ensures Language(Exclude(o, bs), l) == Exclude(Language(o, l), bs)
    ensures Unit(Exclude(o, bs), u) == Exclude(Unit(o, u), bs)
    ensures ExtendHourly(Exclude(o, bs)) == Exclude(ExtendHourly(o), bs)
    ensures Unit(Language(o, l), u) == Language(Unit(o, u), l)
    ensures ExtendHourly(Language(o, l)) == Language(ExtendHourly(o), l)
    ensures ExtendHourly(Unit(o, u)) == Unit(ExtendHourly(o), u)
  {
    var e, x, g, n := ExcludeValue(bs), "hourly", Tokens.LanguageName(l), Tokens.UnitName(u);
    InsertCommutes(o, ExcludeKey, e, LangKey, g);
    InsertCommutes(o, ExcludeKey, e, UnitsKey, n);
    InsertCommutes(o, ExcludeKey, e, ExtendKey, x);
    InsertCommutes(o, LangKey, g, UnitsKey, n);
    InsertCommutes(o, LangKey, g, ExtendKey, x);
    InsertCommutes(o, UnitsKey, n, ExtendKey, x);
  }

  /** Excluding `Hourly` from the default builder gives the one-entry map `exclude=hourly`. */
  lemma ExcludeHourlyMap()
    ensures IntoInner(Exclude(Default(), [Tokens.Hourly])) == map[ExcludeKey := "hourly"]
  {
    assert Tokens.BlockNames([Tokens.Hourly]) == ["hourly"];
  }

  /** `get_ref` example: excluding `Hourly` from the default builder leaves one entry. */
  lemma GetRefExample()
    ensures |GetRef(Exclude(Default(), [Tokens.Hourly]))| == 1
  {
  }

  /** `get_mut` example: `extend_hourly` then a raw insert of a new key leaves two entries. */
  lemma GetMutExample()
    ensures |Insert(ExtendHourly(Default()), "foo", "bar").inner| == 2
  {
  }

  /** `into_inner` example: the unwrapped map still holds `exclude`, with value `hourly`. */
  lemma IntoInnerExample()
    ensures ExcludeKey in IntoInner(Exclude(Default(), [Tokens.Hourly]))
    ensures IntoInner(Exclude(Default(), [Tokens.Hourly]))[ExcludeKey] == "hourly"
  {
  }
}
