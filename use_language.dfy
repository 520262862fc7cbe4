/** The hooks components use: a translation lookup bound to an optional
    namespace, the active locale with its setter, and the active tree. */
module UseLanguage {
  import opened Wrappers
  import opened I18nConfig
  import opened I18nUtils
  import opened LanguageProviders

  /** The prefix a namespace adds: a missing or empty namespace adds nothing. */
  function Prefix(namespace: Option<string>): (r: string)
    ensures r == "" <==> namespace.None? || namespace.value == ""
    ensures r != "" ==> namespace.Some? && r == namespace.value + "."
  {
    if namespace.Some? && namespace.value != "" then namespace.value + "." else ""
  }

  /** The key actually looked up for `key` under `namespace`. */
  function FullKey(namespace: Option<string>, key: string): (r: string)
    ensures namespace.Some? && namespace.value != "" ==> r == namespace.value + "." + key
    ensures namespace.None? || namespace.value == "" ==> r == key
  {
    Prefix(namespace) + key
  }

  /** The function `useTranslations(namespace)` returns, applied to `key`
      and `fallback`: the context's `translate` on the prefixed key, with the
      fallback passed on untouched. */
  method NamespacedTranslate(c: Context, namespace: Option<string>, key: string, fallback: Option<string>)
    returns (r: string)
    modifies c.Footprint()
    ensures r == ContextTranslation(c, FullKey(namespace, key), fallback)
    ensures c.Provided? ==>
              c.provider.warnings == old(c.provider.warnings) +
                MissLog(c.provider.table.Tree(c.provider.locale), FullKey(namespace, key), c.provider.locale, c.provider.production)
    ensures c.Provided? ==>
              && c.provider.locale == old(c.provider.locale)
              && c.provider.storage == old(c.provider.storage)
              && c.provider.docLang == old(c.provider.docLang)
  {
    r := ContextTranslate(c, Prefix(namespace) + key, fallback);
  }

  /** A view that looks a key up, switches the locale through `useLanguage`
      and looks the key up again: the second lookup reads the new locale's
      tree, and the provider's state stays consistent throughout. */
  method LookupSwitchLookup(c: Context, namespace: Option<string>, key: string, next: Locale)
    returns (before: string, after: string)
    requires c.Provided?
    modifies c.Footprint()
    ensures before == Translation(old(c.provider.table.Tree(c.provider.locale)), FullKey(namespace, key), None)
    ensures after == Translation(c.provider.table.Tree(next), FullKey(namespace, key), None)
    ensures c.provider.Valid() && c.provider.locale == next
  {
    before := NamespacedTranslate(c, namespace, key, None);
    ContextSetLocale(c, next);
    after := NamespacedTranslate(c, namespace, key, None);
  }

  // ---------------------------------------------------------------------------
  // Properties

  /** Under a namespace that leads to a sub-tree, a lookup resolves the key in
      that sub-tree; on a miss without fallback the whole prefixed key is shown. */
  lemma NamespacedLookup(tree: TranslationMessages, ns: string, key: string, sub: TranslationMessages)
    requires ns != ""
    requires Walk(Branch(tree), Segments(ns)) == Some(Branch(sub))
    ensures Resolve(tree, FullKey(Some(ns), key)) == Resolve(sub, key)
    ensures Resolve(sub, key).Some? ==> Translation(tree, FullKey(Some(ns), key), None) == Resolve(sub, key).value
    ensures Resolve(sub, key).None? ==> Translation(tree, FullKey(Some(ns), key), None) == ns + "." + key
  {
    NamespaceIsSubtree(tree, ns, key, sub);
  }

  /** An empty namespace and no namespace look up the bare key. */
  lemma EmptyNamespaceIsNone(key: string)
    ensures FullKey(Some(""), key) == FullKey(None, key) == key
  {
  }

  /** The example tree under the `greeting` namespace: `hello` gives `Hello`. */
  lemma GreetingNamespacedLookup()
    ensures Translation(GreetingTree(), FullKey(Some("greeting"), "hello"), None) == "Hello"
  {
    GreetingResolves();
  }
}
