/** The locale state: one mutable locale cell, loaded from client storage at
    start-up, written back to storage and to the document's `lang` attribute
    on every change, and the `translate` lookup against the active locale. */
module LanguageProviders {
  import opened Wrappers
  import opened I18nConfig
  import opened I18nUtils

  /** The client-storage entry that holds the chosen locale. */
  const StorageKey: string := "open-notebook:locale"

  /** A development diagnostic: this key had no translation in this locale. */
  datatype Warning = MissingTranslation(key: string, locale: Locale)

  /** The locale the provider settles on at start-up, given what storage
      holds under `StorageKey` (`None` when nothing is stored). */
  function StartupLocale(stored: Option<string>): (r: Locale)
    ensures stored.Some? && IsLocale(stored.value) ==> Tag(r) == stored.value
    ensures !(stored.Some? && IsLocale(stored.value)) ==> r == DefaultLocale
  {
    if stored.Some? && stored.value != "" && IsLocale(stored.value) then ParseLocale(stored.value).value
    else DefaultLocale
  }

  /** What storage holds under `key`; `None` plays the part of `null`. */
  function StoredValue(storage: map<string, string>, key: string): (r: Option<string>)
    ensures r.Some? <==> key in storage
    ensures r.Some? ==> r.value == storage[key]
  {
    if key in storage then Some(storage[key]) else None
  }

  /** The result of `translate` against one locale's tree: the resolved string,
      else the fallback when one is given (even an empty one), else the key. */
  function Translation(tree: TranslationMessages, key: string, fallback: Option<string>): (r: string)
    ensures Resolve(tree, key).Some? ==> r == Resolve(tree, key).value
    ensures Resolve(tree, key).None? ==> r == fallback.GetOr(key)
  {
    match Resolve(tree, key)
    case Some(message) => message
    case None => fallback.GetOr(key)
  }

  /** The diagnostics one `translate` call adds to the log. */
  function MissLog(tree: TranslationMessages, key: string, locale: Locale, production: bool): (r: seq<Warning>)
    ensures |r| <= 1
    ensures r != [] <==> Resolve(tree, key).None? && !production
    ensures forall w :: w in r ==> w.key == key && w.locale == locale
  {
    if Resolve(tree, key).None? && !production then [MissingTranslation(key, locale)] else []
  }

  class LanguageProvider {
    /** The message trees of every locale. */
    const table: MessageTable
    /** Whether the build runs in production, where diagnostics are silent. */
    const production: bool
    /** The active locale. */
    var locale: Locale
    /** Client storage, a string-keyed string store. */
    var storage: map<string, string>
    /** The document's `lang` attribute. */
    var docLang: string
    /** The diagnostics emitted so far, oldest first. */
    var warnings: seq<Warning>

    /** After every change, storage and the document both carry the active locale. */
    ghost predicate Valid()
      reads this
    {
      && StorageKey in storage
      && storage[StorageKey] == Tag(locale)
      && docLang == Tag(locale)
    }

    /** Mounting the provider: the locale starts at the default, the stored
        value is adopted when it names a locale, and the result is persisted. */
    constructor (table: MessageTable, production: bool, storage: map<string, string>, docLang: string)
      ensures Valid()
      ensures this.table == table && this.production == production
      ensures locale == StartupLocale(StoredValue(storage, StorageKey))
      ensures this.storage == storage[StorageKey := Tag(locale)]
      ensures warnings == []
    {
      this.table := table;
      this.production := production;
      this.locale := DefaultLocale;
      this.storage := storage;
      this.docLang := docLang;
      this.warnings := [];
      new;
      LoadStoredLocale();
      Persist();
    }

    /** The start-up effect: adopt the stored locale when it is valid. */
    method LoadStoredLocale()
      modifies this`locale
      ensures locale == (if StoredValue(storage, StorageKey).Some? && IsLocale(storage[StorageKey])
                         then ParseLocale(storage[StorageKey]).value else old(locale))
    {
      var stored := StoredValue(storage, StorageKey);
      if stored.Some? && stored.value != "" && IsLocale(stored.value) {
        locale := ParseLocale(stored.value).value;
      }
    }

    /** The effect run on every locale change: write the locale to the
        document's `lang` attribute and to storage. */
    method Persist()
      modifies this`storage, this`docLang
      ensures Valid()
      ensures storage == old(storage)[StorageKey := Tag(locale)]
      ensures docLang == Tag(locale)
    {
      docLang := Tag(locale);
      storage := storage[StorageKey := Tag(locale)];
    }

    /** `setLocale`: make `next` active and persist it. */
    method SetLocale(next: Locale)
      modifies this`locale, this`storage, this`docLang
      ensures Valid()
      ensures locale == next
      ensures storage == old(storage)[StorageKey := Tag(next)]
      ensures docLang == Tag(next)
      ensures GetMessages() == table.Tree(next)
    {
      locale := next;
      Persist();
    }

    /** `getMessages`: the tree of the active locale. */
    function GetMessages(): (r: TranslationMessages)
      reads this
      ensures r == table.Tree(locale)
    {
      table.Tree(locale)
    }

    /** `translate`: resolve `key` in the active locale's tree; on a miss,
        record a diagnostic outside production and degrade to the fallback
        or the key. */
    method Translate(key: string, fallback: Option<string>) returns (r: string)
      modifies this`warnings
      ensures r == Translation(table.Tree(locale), key, fallback)
      ensures warnings == old(warnings) + MissLog(table.Tree(locale), key, locale, production)
    {
      var message := GetMessage(table.Tree(locale), key);
      if message.Some? {
        return message.value;
      }
      if !production {
        warnings := warnings + [MissingTranslation(key, locale)];
      }
      r := fallback.GetOr(key);
    }
  }

  /** What a component reads from its language context: the default value
      when no provider is mounted above it, or the provider's state. */
  datatype Context = DefaultContext(table: MessageTable) | Provided(provider: LanguageProvider) {
    /** The objects the context's state lives in. */
    function Footprint(): set<object>
    {
      if Provided? then {provider} else {}
    }
  }

  /** The default context keeps the default locale. */
  function ContextLocale(c: Context): (r: Locale)
    reads c.Footprint()
    ensures c.DefaultContext? ==> r == DefaultLocale
    ensures c.Provided? ==> r == c.provider.locale
  {
    match c
    case DefaultContext(_) => DefaultLocale
    case Provided(p) => p.locale
  }

  /** `getMessages` of a context; without a provider it is the `en` tree. */
  function ContextMessages(c: Context): (r: TranslationMessages)
    reads c.Footprint()
    ensures c.DefaultContext? ==> r == c.table.en
    ensures c.Provided? ==> r == c.provider.table.Tree(c.provider.locale)
  {
    match c
    case DefaultContext(table) => table.Tree(DefaultLocale)
    case Provided(p) => p.GetMessages()
  }

  /** `translate` of a context; without a provider the key comes back
      unchanged, whatever the fallback. */
  function ContextTranslation(c: Context, key: string, fallback: Option<string>): (r: string)
    reads c.Footprint()
    ensures c.DefaultContext? ==> r == key
  {
    match c
    case DefaultContext(_) => key
    case Provided(p) => Translation(p.table.Tree(p.locale), key, fallback)
  }

  /** Calls `translate` on a context; only a provider logs. */
  method ContextTranslate(c: Context, key: string, fallback: Option<string>) returns (r: string)
    modifies c.Footprint()
    ensures r == ContextTranslation(c, key, fallback)
    ensures c.Provided? ==>
              c.provider.warnings == old(c.provider.warnings) +
                MissLog(c.provider.table.Tree(c.provider.locale), key, c.provider.locale, c.provider.production)
    ensures c.Provided? ==>
              && c.provider.locale == old(c.provider.locale)
              && c.provider.storage == old(c.provider.storage)
              && c.provider.docLang == old(c.provider.docLang)
  {
    match c
    case DefaultContext(_) =>
      r := key;
    case Provided(p) =>
      r := p.Translate(key, fallback);
  }

  /** Calls `setLocale` on a context; without a provider it does nothing. */
  method ContextSetLocale(c: Context, next: Locale)
    modifies c.Footprint()
    ensures c.Provided? ==> c.provider.Valid() && c.provider.locale == next
    ensures c.Provided? ==> c.provider.storage == old(c.provider.storage)[StorageKey := Tag(next)]
    ensures c.Provided? ==> c.provider.docLang == Tag(next)
    ensures c.Provided? ==> c.provider.warnings == old(c.provider.warnings)
  {
    match c
    case DefaultContext(_) =>
    case Provided(p) =>
      p.SetLocale(next);
  }

  // ---------------------------------------------------------------------------
  // Properties

  /** Only a stored value that names a locale moves the start-up locale off
      the default; the source's non-empty test is implied by `isLocale`. */
  lemma StartupCases(l: Locale)
    ensures StartupLocale(None) == DefaultLocale
    ensures StartupLocale(Some("")) == DefaultLocale
    ensures StartupLocale(Some("xx")) == DefaultLocale
    ensures StartupLocale(Some(Tag(l))) == l
  {
  }

  /** A translation is the resolved string, the fallback or the key: the lookup
      never fails. A fallback is returned only on a miss. */
  lemma TranslationOrigin(tree: TranslationMessages, key: string, fallback: Option<string>)
    ensures var r := Translation(tree, key, fallback);
      || Resolve(tree, key) == Some(r)
      || (Resolve(tree, key).None? && fallback == Some(r))
      || (Resolve(tree, key).None? && fallback.None? && r == key)
  {
  }

  /** The example tree `{"greeting": {"hello": "Hello"}}`. */
  function GreetingTree(): TranslationMessages
  {
    map["greeting" := Branch(map["hello" := Leaf("Hello")])]
  }

  /** The walks behind the example lookups. */
  lemma GreetingResolves()
    ensures Resolve(GreetingTree(), "greeting" + "." + "hello") == Some("Hello")
    ensures Resolve(GreetingTree(), "greeting" + "." + "bye") == None
  {
    TwoSegments("greeting", "hello");
    TwoSegments("greeting", "bye");
    var greeting := Branch(map["hello" := Leaf("Hello")]);
    assert GreetingTree()["greeting"] == greeting;
    assert ["greeting", "hello"][1..] == ["hello"] && ["hello"][1..] == [];
    assert Walk(greeting, ["hello"]) == Some(Leaf("Hello"));
    assert Walk(Branch(GreetingTree()), ["greeting", "hello"]) == Some(Leaf("Hello"));
    assert ["greeting", "bye"][1..] == ["bye"];
    assert "bye" !in greeting.children;
    assert Walk(Branch(GreetingTree()), ["greeting", "bye"]) == None;
  }

  /** Looking up the example tree: a present key, a missing key with and
      without fallback. */
  lemma GreetingLookups()
    ensures Translation(GreetingTree(), "greeting.hello", None) == "Hello"
    ensures Translation(GreetingTree(), "greeting.bye", Some("N/A")) == "N/A"
    ensures Translation(GreetingTree(), "greeting.bye", None) == "greeting.bye"
  {
    GreetingResolves();
    assert "greeting" + "." + "hello" == "greeting.hello";
    assert "greeting" + "." + "bye" == "greeting.bye";
  }
}
