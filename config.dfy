/** Locale configuration: the closed set of supported locales, the default
    locale, the membership test on raw strings, the shape of a message tree
    and the table holding one tree per locale. */
module I18nConfig {
  import opened Wrappers

  /** A supported locale. */
  datatype Locale = En | Vi

  /** The language tag a locale is written as, in storage and in the document. */
  function Tag(l: Locale): (r: string)
    ensures r == "en" || r == "vi"
    ensures r == "en" <==> l == En
  {
    match l
    case En => "en"
    case Vi => "vi"
  }

  /** The supported locales, in declaration order. */
  const Locales: seq<Locale> := [En, Vi]

  const DefaultLocale: Locale := En

  /** A node of a message tree: a translated string or a map of named children. */
  datatype TranslationValue = Leaf(text: string) | Branch(children: map<string, TranslationValue>)

  /** The root of a message tree is always a map. */
  type TranslationMessages = map<string, TranslationValue>

  /** One message tree per supported locale. The contents of the trees are
      parameters of the model. */
  datatype MessageTable = MessageTable(en: TranslationMessages, vi: TranslationMessages) {
    function Tree(l: Locale): (r: TranslationMessages)
      ensures l == En ==> r == en
      ensures l == Vi ==> r == vi
    {
      match l
      case En => en
      case Vi => vi
    }
  }

  /** Membership of a raw string in the tags of `Locales`. */
  predicate IsLocale(input: string)
    ensures IsLocale(input) <==> input == "en" || input == "vi"
  {
    assert Tag(Locales[0]) == "en" && Tag(Locales[1]) == "vi";
    exists i :: 0 <= i < |Locales| && Tag(Locales[i]) == input
  }

  /** The locale a string names, when `IsLocale` holds of it; this is
      the narrowing that `isLocale` performs on its argument's type. */
  function ParseLocale(input: string): (r: Option<Locale>)
    ensures r.Some? <==> IsLocale(input)
    ensures r.Some? ==> Tag(r.value) == input
  {
    if input == Tag(En) then Some(En)
    else if input == Tag(Vi) then Some(Vi)
    else None
  }

  /** Every locale value is listed in `Locales`, the default among them. */
  lemma LocalesComplete(l: Locale)
    ensures l in Locales
    ensures DefaultLocale in Locales && Tag(DefaultLocale) == "en"
  {
  }

  /** Tags are distinct, so a tag identifies its locale. */
  lemma TagInjective(a: Locale, b: Locale)
    ensures Tag(a) == Tag(b) ==> a == b
  {
  }

  /** Parsing a locale's own tag gives the locale back. */
  lemma ParseTag(l: Locale)
    ensures ParseLocale(Tag(l)) == Some(l)
    ensures IsLocale(Tag(l))
  {
  }

  /** Strings outside the two tags are refused, the empty string included. */
  lemma NotLocales()
    ensures !IsLocale("") && !IsLocale("xx") && !IsLocale("EN")
    ensures ParseLocale("") == None && ParseLocale("xx") == None
  {
  }
}
