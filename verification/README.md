# darksky request building, modelled in Dafny

This project models the request-building half of the `darksky` Rust client for
the Dark Sky forecast API: the wire tokens of the `Block`, `Language` and `Unit`
enumerations, the fluent `Options` builder over a string-keyed map, and the two
URL formatters `uri` and `uri_optioned`.

Modules, one per concept:

- `Wrappers` (`wrappers.dfy`): `Option` and `Result`.
- `Text` (`text.dfy`): first-index search, `Join` (Rust's `join`) and `Split`
  (Rust's `str::split`), with both round-trip laws.
- `Tokens` (`tokens.dfy`): the three enumerations, the `name` token tables
  (`BlockName`, `LanguageName`, `UnitName`) and their serde renames read in the
  decoding direction (`ParseBlock`, `ParseLanguage`, `ParseUnit`).
- `OptionsBuilder` (`options.dfy`): `Options` as an immutable wrapper of
  `map<string, string>`. Every mutator is the map's `insert` on one fixed key.
- `Utils` (`utils.dfy`): `Uri`, `UriOptioned`, and the loop-shaped method
  `FormatUriOptioned` that builds the same URL the way the source does.
  `ParseQuery` reads a query string back into pairs. It is the inverse partner
  used to state what the query contains.

Modelling choices:

- Coordinates are passed as already-rendered text. The source prints them with
  the `Display` of `f64`, which is not modelled.
- `API_URL` is the constant `"https://api.darksky.net"`, the value the
  `uri` doc example shows.
- A `HashMap` iterates in an unspecified order. `UriOptioned` therefore takes
  that order as a parameter `order`, required to visit every key exactly once
  (`Enumerates`). Every property is proved for all such orders. Some of them
  (length, decoded content) are proved to be the same for any two orders.
- `uri_optioned` can fail only while writing the coordinates into the buffer.
  With rendered text that write cannot fail, so the result is always `Ok`.
  `Error` keeps only the `Fmt` kind.

`exclude` takes a `Vec<Block>`: order is kept and duplicates are allowed.

## Model

| member | source | states |
|---|---|---|
| Tokens.BlockWire | src/lib.rs:146-177 | a token parses to a block exactly when it is that block's `name`; `name` agrees with the serde rename |
| Tokens.ParseBlock | src/lib.rs:146-164 | the serde rename table for `Block`: each of the five tokens reads as its variant and every other string is rejected (partner of `BlockName`, tied to it by `BlockWire`) |
| Tokens.BlockRoundTrip | src/lib.rs:166-177 | every block's token decodes back to that block |
| Tokens.ParseBlockSound | src/lib.rs:146-164 | any token that decodes to a block is that block's `name` |
| Tokens.BlockNameInjective | src/lib.rs:170-176 | distinct blocks have distinct tokens |
| Tokens.BlockNameSafe | src/lib.rs:170-176 | block tokens are non-empty and contain no `,` `&` `=` `?` |
| Tokens.BlockName | src/lib.rs:167-177 | every block's token reads back through the serde rename table as that block |
| Tokens.BlockNames | src/lib.rs:414 | the token list has one token per block, and each token reads back through the serde table as the block at its position |
| Tokens.BlockNamesInjective | src/lib.rs:414 | different block lists give different token lists |
| Tokens.LanguageName | src/lib.rs:282-317 | every language's token reads back through the serde rename table as that language |
| Tokens.LanguageWire | src/lib.rs:187-317 | a token parses to a language exactly when it is that language's `name`, for all 30 variants |
| Tokens.ParseLanguage | src/lib.rs:187-279 | the serde rename table for `Language`: each of the 30 tokens reads as its variant and every other string is rejected (partner of `LanguageName`, tied to it by `LanguageWire`) |
| Tokens.LanguageRoundTrip | src/lib.rs:281-317 | every language's token decodes back to that language |
| Tokens.ParseLanguageSound | src/lib.rs:187-279 | any token that decodes to a language is that language's `name` |
| Tokens.LanguageNameInjective | src/lib.rs:285-316 | distinct languages have distinct tokens |
| Tokens.LanguageNameSafe | src/lib.rs:285-316 | language tokens are non-empty and contain no URL delimiter |
| Tokens.UnitName | src/lib.rs:368-379 | every unit's token reads back through the serde rename table as that unit |
| Tokens.UnitWire | src/lib.rs:338-379 | a token parses to a unit exactly when it is that unit's `name` (`auto`, `ca`, `si`, `uk2`, `us`) |
| Tokens.ParseUnit | src/lib.rs:338-365 | the serde rename table for `Unit`: each of the five tokens reads as its variant and every other string is rejected (partner of `UnitName`, tied to it by `UnitWire`) |
| Tokens.UnitRoundTrip | src/lib.rs:367-379 | every unit's token decodes back to that unit |
| Tokens.ParseUnitSound | src/lib.rs:338-365 | any token that decodes to a unit is that unit's `name` |
| Tokens.UnitNameInjective | src/lib.rs:371-377 | distinct units have distinct tokens |
| Tokens.UnitNameSafe | src/lib.rs:371-377 | unit tokens are non-empty and contain no URL delimiter |
| Text.FirstIndex | src/lib.rs:416 | the index found holds the separator, and no earlier position does |
| Text.Join | src/lib.rs:416 | `[String]::join`: the parts with one separator between each pair; `Split` inverts it (`SplitJoin`, `JoinSplit`) |
| Text.FirstIndexAfter | src/lib.rs:416 | the first separator after a separator-free prefix is found at the prefix's end |
| Text.Split | src/lib.rs:416 | splitting yields at least one part, and no part contains the separator |
| Text.SplitJoin | src/lib.rs:414-416 | splitting a comma join of a non-empty list of comma-free parts gives the parts back, in order |
| Text.JoinSplit | src/lib.rs:416 | joining the parts of a split restores the string |
| Text.JoinEmpty | src/lib.rs:416 | a join of non-empty parts is empty exactly when there are no parts |
| Text.JoinAvoids | src/lib.rs:416 | a join contains a character only if a part or the separator does |
| OptionsBuilder.Default | src/lib.rs:404-405 | the default builder holds no entries |
| OptionsBuilder.Insert | src/lib.rs:449-451 | inserting through the map `get_mut` returns sets one key, leaves every other entry as it was, and grows the map only for a new key |
| OptionsBuilder.BlockNamesSafe | src/lib.rs:170-176 | the token list `exclude` joins has only non-empty, delimiter-free tokens |
| OptionsBuilder.Exclude | src/lib.rs:413-421 | `exclude` writes only `exclude`; the stored value is empty exactly when the block list is empty, and the key is present either way |
| OptionsBuilder.ExcludeValue | src/lib.rs:414-416 | the stored `exclude` value: the block tokens joined with `,`; it reads back as the block list (`ExcludeSplitsBack`) and different lists give different values (`ExcludeValueInjective`) |
| OptionsBuilder.ExcludeSplitsBack | src/lib.rs:413-418 | for a non-empty list, splitting the stored value on `,` gives the block tokens in input order |
| OptionsBuilder.ExcludeValueInjective | src/lib.rs:413-418 | different block lists store different `exclude` values |
| OptionsBuilder.ExtendHourly | src/lib.rs:427-431 | `extend_hourly` writes only `extend`, and stores `hourly` |
| OptionsBuilder.Language | src/lib.rs:487-491 | `language` writes only `lang`, with a token that decodes back to the language given |
| OptionsBuilder.Unit | src/lib.rs:498-502 | `unit` writes only `units`, with a token that decodes back to the unit given |
| OptionsBuilder.GetRef | src/lib.rs:464-466 | read access to the map; its behaviour is stated by `GetRefExample` |
| OptionsBuilder.IntoInner | src/lib.rs:480-482 | the unwrapped map; its behaviour is stated by `IntoInnerExample` |
| OptionsBuilder.InsertLastWriteWins | src/lib.rs:449-451 | a second insert on a key replaces the first |
| OptionsBuilder.InsertCommutes | src/lib.rs:449-451 | inserts on different keys commute |
| OptionsBuilder.MutatorsLastWriteWins | src/lib.rs:413-502 | repeating a mutator replaces the value rather than accumulating; `extend_hourly` is idempotent |
| OptionsBuilder.MutatorsCommute | src/lib.rs:413-502 | the four mutators write different keys, so any chain order yields the same options |
| OptionsBuilder.ExcludeHourlyMap | src/lib.rs:473-479 | excluding `Hourly` from the default gives exactly the map `exclude` to `hourly` |
| OptionsBuilder.GetRefExample | src/lib.rs:457-466 | excluding `Hourly` from the default leaves one entry |
| OptionsBuilder.GetMutExample | src/lib.rs:437-451 | `extend_hourly` then a raw insert of a new key leaves two entries |
| OptionsBuilder.IntoInnerExample | src/lib.rs:472-482 | the unwrapped map still holds `exclude` |
| Utils.Uri | src/utils.rs:27-30 | the no-options URL starts with the path and `?`, ends in `?units=auto`, and has no trailing `&` |
| Utils.Path | src/utils.rs:60-68 | the URL up to the `?`: API URL, `/forecast/`, token, `/`, latitude, `,`, longitude; `Uri` and `UriOptioned` both start with it |
| Utils.Group | src/utils.rs:71-83 | one loop iteration's output: key, `=`, the raw value bytes, `&` |
| Utils.Query | src/utils.rs:70-84 | the query after the `?`: one `Group` per map entry in iteration order; `ParseQuery` reads it back as the map for an unambiguous map (`QueryRoundTrip`) |
| Utils.UriOptioned | src/utils.rs:53-87 | always `Ok`; starts with the path and `?`; ends in `?` exactly for an empty map and in `&` otherwise; its length is the path plus one plus every entry's key and value length plus two; every `key=value&` appears verbatim in the query |
| Utils.FormatUriOptioned | src/utils.rs:54-87 | the buffer-pushing loop builds exactly the URL `UriOptioned` describes |
| Utils.EnumerationExists | src/utils.rs:70 | every map has an iteration order, so requiring one excludes no options map |
| Utils.EnumerationEmpty | src/utils.rs:70 | an iteration order is empty exactly when the map is |
| Utils.EnumerationLength | src/utils.rs:70 | an iteration order has one position per entry, so `N` entries give `N` groups |
| Utils.SingleKeyOrder | src/utils.rs:70 | a one-entry map has a single iteration order |
| Utils.DistinctCard | src/utils.rs:70 | a duplicate-free order has as many positions as members |
| Utils.RemoveAt | src/utils.rs:70 | dropping one position from a duplicate-free order drops exactly that key |
| Utils.QueryLength | src/utils.rs:70-84 | the query's length is the sum of its groups' lengths |
| Utils.QueryEnd | src/utils.rs:83 | a non-empty query ends in `&` |
| Utils.QueryAppend | src/utils.rs:70-84 | the query of two orders in sequence is the two queries concatenated |
| Utils.QueryHasGroup | src/utils.rs:70-84 | each visited entry contributes its `key=value&` verbatim |
| Utils.WeightRemove | src/utils.rs:70-84 | removing one entry from an order takes its group length off the total |
| Utils.WeightOrderFree | src/utils.rs:70-84 | any two orders over the same keys give the same total length |
| Utils.UriOptionedLengthOrderFree | src/utils.rs:70-84 | the URL's length does not depend on the map's iteration order |
| Utils.Pairs | src/utils.rs:70 | the entries listed in order, one pair per visited key with that key's value |
| Utils.ParseGroup | src/utils.rs:71-83 | a `key=value&` group reads back as its pair when the key has no `=` or `&` and the value no `&` |
| Utils.QueryRoundTrip | src/utils.rs:70-84 | the query of an unambiguous map reads back as its entries, in written order |
| Utils.QueryDecodesToOptions | src/utils.rs:70-84 | for an unambiguous map (keys without `=` or `&`, values without `&`) and every iteration order, the decoded query holds each entry of the map exactly once and nothing else |
| Utils.UnitsOnlyWhenSet | src/utils.rs:60-84 | for an unambiguous map (keys without `=` or `&`, values without `&`), the options URL carries a `units` pair exactly when the options set one; no `units=auto` is added |
| Utils.RawValuesAreNotEscaped | src/utils.rs:74-81 | values are copied without escaping, so a value holding `&` yields the same query as two separate entries |
| Utils.InsertKeepsUnambiguous | src/lib.rs:449-451 | a raw insert into an unambiguous map keeps it unambiguous if and only if the key has no `=` or `&` and the value no `&` |
| Utils.ExcludeKeepsUnambiguous | src/lib.rs:413-421 | `exclude` never introduces a delimiter into the query |
| Utils.LanguageKeepsUnambiguous | src/lib.rs:487-491 | `language` never introduces a delimiter into the query |
| Utils.UnitKeepsUnambiguous | src/lib.rs:498-502 | `unit` never introduces a delimiter into the query |
| Utils.BuilderKeepsUnambiguous | src/lib.rs:413-502 | the default options are unambiguous and each of the four mutators keeps an unambiguous map unambiguous, so options built only with them give a query that reads back unambiguously |
| Utils.UriIsAutoUnitsOptioned | src/utils.rs:28-86 | `uri` equals `uri_optioned` with the single entry `units=auto`, minus the trailing `&` |
| Utils.QueryStartsAtFirstMark | src/utils.rs:28-68 | when the token and coordinates contain no `?`, both URLs' queries start right after the first `?` |
| Utils.UriExample | src/utils.rs:19-26 | `uri("abc", -7.3, 8.17)` is `https://api.darksky.net/forecast/abc/-7.3,8.17?units=auto` |
| Utils.UriOptionedSingle | src/utils.rs:60-86 | with a one-entry map the URL is the path, `?`, and that entry's group |
| Utils.UriOptionedExample | src/utils.rs:42-50 | excluding `Hourly` with token `def` at `-4.13,14.32` yields `.../forecast/def/-4.13,14.32?exclude=hourly&` for every iteration order |

## Left out

- HTTP bridges (`src/bridge/hyper.rs`, `src/bridge/reqwest.rs`): a GET plus body reading and JSON decoding over external HTTP libraries. The hyper bridge calls the four-argument `uri_optioned` modelled here. The reqwest bridge calls a five-argument version with a time segment, which is not part of this model.
- Response schema and decoding (`src/models.rs`): serde declarations, decoded by serde_json, which the model cannot see.
- Error enum (`src/error.rs`): an enum wrapping error kinds (including a `Decode` variant for response bodies), with no logic the request path uses. Only the `Fmt` kind that `uri_optioned` can return is modelled.
- Float formatting of coordinates: the `Display` of `f64` is not modelled. Coordinates are passed as the text it would produce.
- Utils.UriOptioned: never returns `Err(Fmt)`, because writing rendered text into a string cannot fail. The source's failure path for a failing `write!` is not reachable in the model.
- The `unsafe` byte extension in `uri_optioned` is modelled as plain string concatenation. The value is already a valid `String`, so the bytes appended are the same.
- OptionsBuilder.Insert: `get_mut` hands out the whole `&mut HashMap`, which also allows `remove`, `clear` and other changes. Only its use for `insert` is modelled.
- `HashMap` iteration order is a parameter, not a particular hashing scheme.
- Map keys are `&'static str` in the source and `string` here. Lifetimes are not modelled.
- Live-network tests (`tests/test_hyper.rs`) are not modelled.
