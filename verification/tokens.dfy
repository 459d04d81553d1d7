/**
 * The closed enumerations of the forecast client and the exact wire token the
 * API expects for each variant: `Block` (a datablock that can be excluded),
 * `Language` (the language of summaries) and `Unit` (the unit system).
 * Each `...Name` function is the Rust `name` method; each `Parse...` function
 * is the serde rename on the same variant, read in the decoding direction.
 */
module Tokens {
  import opened Wrappers

  /** Free of the characters that delimit list items, query pairs and the query itself. */
  predicate Safe(s: string)
  {
    ',' !in s && '&' !in s && '=' !in s && '?' !in s
  }

  /** A datablock of a forecast, named so it can be excluded from a request. */
  datatype Block =
    | Currently
    | Daily
    | Flags
    | Hourly
    | Minutely

  /** The wire token the API expects for a block: the token its serde rename reads back as that block. */
  function BlockName(b: Block): (token: string)
    ensures ParseBlock(token) == Some(b)
  {
    match b
    case Currently => "currently"
    case Daily => "daily"
    case Flags => "flags"
    case Hourly => "hourly"
    case Minutely => "minutely"
  }

  /**
   * The block whose serde rename is `s`, or `None` for any other
   * token: derived `Deserialize` accepts exactly the renamed tokens.
   */
  function ParseBlock(s: string): Option<Block>
  {
    if s == "currently" then Some(Currently)
    else if s == "daily" then Some(Daily)
    else if s == "flags" then Some(Flags)
    else if s == "hourly" then Some(Hourly)
    else if s == "minutely" then Some(Minutely)
    else None
  }

  /** Every block's own token parses back to it. */
  lemma BlockRoundTrip(b: Block)
    ensures ParseBlock(BlockName(b)) == Some(b)
  {
  }

  /** A token that parses names the block it parses to. */
  lemma ParseBlockSound(s: string)
    ensures ParseBlock(s).Some? ==> BlockName(ParseBlock(s).value) == s
  {
  }

  /** `BlockName` and `ParseBlock` are inverse: a token parses to a block exactly when it is that block's name. */
  lemma BlockWire(b: Block, s: string)
    ensures ParseBlock(s) == Some(b) <==> BlockName(b) == s
  {
    BlockRoundTrip(b);
    ParseBlockSound(s);
  }

  /** Distinct blocks never share a wire token. */
  lemma BlockNameInjective(a: Block, b: Block)
    ensures BlockName(a) == BlockName(b) ==> a == b
  {
    BlockWire(a, BlockName(a));
    BlockWire(b, BlockName(b));
  }

  /** Every block token is non-empty and free of the URL delimiters. */
  lemma BlockNameSafe(b: Block)
    ensures |BlockName(b)| > 0 && Safe(BlockName(b))
  {
  }

  /** The wire tokens of `bs`, in order: each one reads back as the block at its position. */
  function BlockNames(bs: seq<Block>): (names: seq<string>)
    ensures |names| == |bs|
    ensures forall i :: 0 <= i < |bs| ==> ParseBlock(names[i]) == Some(bs[i])
  {
    seq(|bs|, i requires 0 <= i < |bs| => BlockName(bs[i]))
  }

  /** Lists of blocks with the same token lists are the same list. */
  lemma BlockNamesInjective(a: seq<Block>, b: seq<Block>)
    requires BlockNames(a) == BlockNames(b)
    ensures a == b
  {
    forall i | 0 <= i < |a|
      ensures a[i] == b[i]
    {
      BlockNameInjective(a[i], b[i]);
    }
  }

  /** A language for the `summary` text of a forecast. */
  datatype Language =
    | Ar
    | Az
    | Be
    | Bs
    | Cs
    | De
    | El
    | En
    | Es
    | Fr
    | Hr
    | Hu
    | Id
    | It
    | Is
    | Kw
    | Nb
    | Nl
    | Pl
    | Pt
    | Ru
    | Sk
    | Sr
    | Sv
    | Tet
    | Tr
    | Uk
    | XPigLatin
    | Zh
    | ZhTw

  /** The wire token the API expects for a language: the token its serde rename reads back as that language. */
  function LanguageName(l: Language): (token: string)
    ensures ParseLanguage(token) == Some(l)
  {
    match l
    case Ar => "ar"
    case Az => "az"
    case Be => "be"
    case Bs => "bs"
    case Cs => "cs"
    case De => "de"
    case El => "el"
    case En => "en"
    case Es => "es"
    case Fr => "fr"
    case Hr => "hr"
    case Hu => "hu"
    case Id => "id"
    case It => "it"
    case Is => "is"
    case Kw => "kw"
    case Nb => "nb"
    case Nl => "nl"
    case Pl => "pl"
    case Pt => "pt"
    case Ru => "ru"
    case Sk => "sk"
    case Sr => "sr"
    case Sv => "sv"
    case Tet => "tet"
    case Tr => "tr"
    case Uk => "uk"
    case XPigLatin => "x-pig-latin"
    case Zh => "zh"
    case ZhTw => "zh-tw"
  }

  /**
   * The language whose serde rename is `s`, or `None` for any other
   * token: derived `Deserialize` accepts exactly the renamed tokens.
   */
  function ParseLanguage(s: string): Option<Language>
  {
    if s == "tet" then Some(Tet)
    else if s == "x-pig-latin" then Some(XPigLatin)
    else if s == "zh-tw" then Some(ZhTw)
    else if |s| == 2 then ParseTwoLetterLanguage(s[0], s[1])
    else None
  }

  /** The two-letter language tokens, read character by character. */
  function ParseTwoLetterLanguage(a: char, b: char): Option<Language>
  {
    match (a, b)
    case ('a', 'r') => Some(Ar)
    case ('a', 'z') => Some(Az)
    case ('b', 'e') => Some(Be)
    case ('b', 's') => Some(Bs)
    case ('c', 's') => Some(Cs)
    case ('d', 'e') => Some(De)
    case ('e', 'l') => Some(El)
    case ('e', 'n') => Some(En)
    case ('e', 's') => Some(Es)
    case ('f', 'r') => Some(Fr)
    case ('h', 'r') => Some(Hr)
    case ('h', 'u') => Some(Hu)
    case ('i', 'd') => Some(Id)
    case ('i', 't') => Some(It)
    case ('i', 's') => Some(Is)
    case ('k', 'w') => Some(Kw)
    case ('n', 'b') => Some(Nb)
    case ('n', 'l') => Some(Nl)
    case ('p', 'l') => Some(Pl)
    case ('p', 't') => Some(Pt)
    case ('r', 'u') => Some(Ru)
    case ('s', 'k') => Some(Sk)
    case ('s', 'r') => Some(Sr)
    case ('s', 'v') => Some(Sv)
    case ('t', 'r') => Some(Tr)
    case ('u', 'k') => Some(Uk)
    case ('z', 'h') => Some(Zh)
    case _ => None
  }

  /** Every language's own token parses back to it. */
  lemma LanguageRoundTrip(l: Language)
    ensures ParseLanguage(LanguageName(l)) == Some(l)
  {
  }

  /** A token that parses names the language it parses to. */
  lemma ParseLanguageSound(s: string)
    ensures ParseLanguage(s).Some? ==> LanguageName(ParseLanguage(s).value) == s
  {
  }

  /** `LanguageName` and `ParseLanguage` are inverse: a token parses to a language exactly when it is that language's name. */
  lemma LanguageWire(l: Language, s: string)
    ensures ParseLanguage(s) == Some(l) <==> LanguageName(l) == s
  {
    LanguageRoundTrip(l);
    ParseLanguageSound(s);
  }

  /** Distinct languages never share a wire token. */
  lemma LanguageNameInjective(a: Language, b: Language)
    ensures LanguageName(a) == LanguageName(b) ==> a == b
  {
    LanguageWire(a, LanguageName(a));
    LanguageWire(b, LanguageName(b));
  }

  /** Every language token is non-empty and free of the URL delimiters. */
  lemma LanguageNameSafe(l: Language)
    ensures |LanguageName(l)| > 0 && Safe(LanguageName(l))
  {
  }

  /** A unit system for the values of a forecast. */
  datatype Unit =
    | Auto
    | Ca
    | Si
    | Uk2
    | Us

  /** The wire token the API expects for a unit: the token its serde rename reads back as that unit. */
  function UnitName(u: Unit): (token: string)
    ensures ParseUnit(token) == Some(u)
  {
    match u
    case Auto => "auto"
    case Ca => "ca"
    case Si => "si"
    case Uk2 => "uk2"
    case Us => "us"
  }

  /**
   * The unit whose serde rename is `s`, or `None` for any other
   * token: derived `Deserialize` accepts exactly the renamed tokens.
   */
  function ParseUnit(s: string): Option<Unit>
  {
    if s == "auto" then Some(Auto)
    else if s == "ca" then Some(Ca)
    else if s == "si" then Some(Si)
    else if s == "uk2" then Some(Uk2)
    else if s == "us" then Some(Us)
    else None
  }

  /** Every unit's own token parses back to it. */
  lemma UnitRoundTrip(u: Unit)
    ensures ParseUnit(UnitName(u)) == Some(u)
  {
  }

  /** A token that parses names the unit it parses to. */
  lemma ParseUnitSound(s: string)
    ensures ParseUnit(s).Some? ==> UnitName(ParseUnit(s).value) == s
  {
  }

  /** `UnitName` and `ParseUnit` are inverse: a token parses to a unit exactly when it is that unit's name. */
  lemma UnitWire(u: Unit, s: string)
    ensures ParseUnit(s) == Some(u) <==> UnitName(u) == s
  {
    UnitRoundTrip(u);
    ParseUnitSound(s);
  }

  /** Distinct units never share a wire token. */
  lemma UnitNameInjective(a: Unit, b: Unit)
    ensures UnitName(a) == UnitName(b) ==> a == b
  {
    UnitWire(a, UnitName(a));
    UnitWire(b, UnitName(b));
  }

  /** Every unit token is non-empty and free of the URL delimiters. */
  lemma UnitNameSafe(u: Unit)
    ensures |UnitName(u)| > 0 && Safe(UnitName(u))
  {
  }
}
