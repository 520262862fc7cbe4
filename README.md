# open-notebook dashboard: internationalisation and model grouping

This project models the hand-written internationalisation layer of the
open-notebook web dashboard, plus the function that groups configured models
by provider for the podcast template panels.

- **Locale configuration** (`I18nConfig`): the closed locale set `en`/`vi`,
  the default `en`, `isLocale` on raw strings and the narrowing it performs,
  the recursive message tree (`Leaf(string) | Branch(map)`), and a table with
  one tree per locale. The trees' contents are parameters.
- **Key resolver** (`I18nUtils`): `getMessage` as an imperative loop
  (`GetMessage`) proved against the reference walk `Resolve`. A key is split
  on dots, and empty pieces are dropped (`Segments`). The segments are then
  followed from the root (`Walk`).
- **Locale state** (`LanguageProviders`): the provider as a class. It holds
  the active locale, the client storage, the document's `lang` attribute
  and a log of missing-translation diagnostics. `Context` is what a
  component reads: the default context value when no provider is mounted,
  or the provider itself.
- **Hooks** (`UseLanguage`): the namespaced lookup that `useTranslations`
  returns.
- **Grouping** (`TemplatesTab`): `modelsByProvider` as a fold over the
  filtered models, proved against the reference map `Grouped`. The model
  also returns the order in which the fold creates the accumulator's keys.

Resolution is a function of the tree and the key. The tree is an immutable
value, so resolving a key twice gives the same result and never changes the
tree.

Three details of the code that the model keeps:
- Without a provider, the default context's `translate` returns the key and
  ignores any fallback.
- The missing-translation diagnostic is emitted only outside production.
- `setLocale` takes a value of the locale type. An unsupported candidate
  cannot be passed to it.

## Model

| member | source | states |
|---|---|---|
| I18nConfig.Tag | frontend/src/i18n/config.ts:4 | the tag a locale is written as: `en` for the default locale, `vi` for the other |
| I18nConfig.MessageTable.Tree | frontend/src/i18n/config.ts:10-17 | every locale has a message tree, whose nodes are leaf strings or maps of children |
| Wrappers.Option.GetOr | frontend/src/components/providers/LanguageProvider.tsx:83 | the `??` operator: the wrapped value, else the default |
| I18nConfig.IsLocale | frontend/src/i18n/config.ts:19-21 | a string is a locale exactly when it is `"en"` or `"vi"` |
| I18nConfig.ParseLocale | frontend/src/i18n/config.ts:19-21 | the narrowing gives a locale exactly when `isLocale` holds, and that locale's tag is the input |
| I18nConfig.LocalesComplete | frontend/src/i18n/config.ts:4-8 | every locale is in `locales`; the default is `en` and is among them |
| I18nConfig.TagInjective | frontend/src/i18n/config.ts:4 | distinct locales have distinct tags |
| I18nConfig.ParseTag | frontend/src/i18n/config.ts:19-21 | a locale's own tag passes `isLocale` and narrows back to that locale |
| I18nConfig.NotLocales | frontend/src/i18n/config.ts:19-21 | `""`, `"xx"` and `"EN"` are not locales |
| I18nUtils.SplitOnDot | frontend/src/i18n/utils.ts:7 | splitting gives at least one piece and no piece holds a dot |
| I18nUtils.NonEmpty | frontend/src/i18n/utils.ts:7 | filtering keeps only non-empty pieces taken from the input, never more of them |
| I18nUtils.Segments | frontend/src/i18n/utils.ts:7 | every segment of a key is non-empty and dot-free |
| I18nUtils.Walk | frontend/src/i18n/utils.ts:9-17 | the reference walk: an empty path stays at the node; a leaf, or a map lacking the next segment, ends the walk with nothing |
| I18nUtils.Resolve | frontend/src/i18n/utils.ts:9-19 | the reference resolution: a key without segments resolves to nothing, and a result is the leaf its segments reach |
| I18nUtils.GetMessage | frontend/src/i18n/utils.ts:3-20 | the loop with its early exits returns exactly the reference resolution of the key |
| I18nUtils.WalkAppend | frontend/src/i18n/utils.ts:9-17 | walking a concatenated path is walking the first part, then the second from where it ended |
| I18nUtils.LeafThenMoreMisses | frontend/src/i18n/utils.ts:11-14 | once a leaf is reached, any further segment gives nothing |
| I18nUtils.ResolvedLeafExtendedMisses | frontend/src/i18n/utils.ts:11-14 | a key that resolves, extended by a dot and a non-empty segment, resolves to nothing |
| I18nUtils.BranchKeyMisses | frontend/src/i18n/utils.ts:19 | a key naming a branch resolves to nothing |
| I18nUtils.ResolveCharacterised | frontend/src/i18n/utils.ts:9-19 | a key resolves to `s` exactly when its segments lead from the root to the leaf `s` |
| I18nUtils.NamespaceIsSubtree | frontend/src/i18n/utils.ts:7-19 | when `ns` leads to a sub-tree, `ns + "." + k` resolves as `k` does in that sub-tree |
| I18nUtils.SplitConcat | frontend/src/i18n/utils.ts:7 | splitting `a + "." + b` gives the pieces of `a` followed by those of `b` |
| I18nUtils.NonEmptyConcat | frontend/src/i18n/utils.ts:7 | dropping empty pieces distributes over concatenation |
| I18nUtils.SegmentsConcat | frontend/src/i18n/utils.ts:7 | the segments of `a + "." + b` are those of `a` followed by those of `b` |
| I18nUtils.SplitNoDot | frontend/src/i18n/utils.ts:7 | a dot-free string is one piece |
| I18nUtils.OnlyDotsHasNoSegments | frontend/src/i18n/utils.ts:7 | the empty key and keys of dots alone have no segments |
| I18nUtils.OnlyDotsKeyMisses | frontend/src/i18n/utils.ts:7-19 | such a key stops at the root map, so it resolves to nothing |
| I18nUtils.SegmentsIgnoreEmpty | frontend/src/i18n/utils.ts:7 | doubled, leading and trailing dots leave the segments unchanged |
| I18nUtils.EmptySegmentsIgnored | frontend/src/i18n/utils.ts:7-19 | `a..b`, `.a` and `a.` resolve as `a.b` and `a` do |
| I18nUtils.TwoSegments | frontend/src/i18n/utils.ts:7 | a key of two dot-free parts joined by one dot has those two segments |
| I18nUtils.SegmentsOfJoin | frontend/src/i18n/utils.ts:7 | joining non-empty dot-free segments with dots and splitting again gives them back |
| LanguageProviders.StartupLocale | frontend/src/components/providers/LanguageProvider.tsx:51-54 | a stored string that is a locale becomes the start-up locale; anything else, or nothing stored, leaves the default |
| LanguageProviders.StoredValue | frontend/src/components/providers/LanguageProvider.tsx:51 | `getItem` gives the stored string when the key is present, and nothing (`null`) otherwise |
| LanguageProviders.StartupCases | frontend/src/components/providers/LanguageProvider.tsx:51-54 | nothing stored, `""` and `"xx"` give the default; a stored tag gives its locale |
| LanguageProviders.Translation | frontend/src/components/providers/LanguageProvider.tsx:71-86 | a resolved key gives its string; a miss gives the fallback when given, else the key |
| LanguageProviders.TranslationOrigin | frontend/src/components/providers/LanguageProvider.tsx:83 | the result is the resolved string, or on a miss the fallback (an empty one too), or on a miss without fallback the key |
| LanguageProviders.MissLog | frontend/src/components/providers/LanguageProvider.tsx:79-81 | at most one diagnostic per call; one exactly on a miss outside production, naming the key and the locale |
| LanguageProviders.LanguageProvider.constructor | frontend/src/components/providers/LanguageProvider.tsx:44-65 | the locale starts at the default and adopts a valid stored value; storage and `lang` then hold it |
| LanguageProviders.LanguageProvider.LoadStoredLocale | frontend/src/components/providers/LanguageProvider.tsx:46-55 | the stored value is adopted only if it is a locale; otherwise the locale is unchanged |
| LanguageProviders.LanguageProvider.Persist | frontend/src/components/providers/LanguageProvider.tsx:57-65 | storage under `open-notebook:locale` and the document `lang` both become the current locale's tag; nothing else in storage changes |
| LanguageProviders.LanguageProvider.SetLocale | frontend/src/components/providers/LanguageProvider.tsx:67-69 | the locale becomes the argument, is persisted, and later lookups use that locale's tree |
| LanguageProviders.LanguageProvider.GetMessages | frontend/src/components/providers/LanguageProvider.tsx:88 | the tree of the active locale |
| LanguageProviders.LanguageProvider.Translate | frontend/src/components/providers/LanguageProvider.tsx:71-86 | returns the translation against the active tree; appends a diagnostic exactly on a miss outside production |
| LanguageProviders.ContextLocale | frontend/src/lib/hooks/use-language.ts:8-15 | `useLanguage().locale`: the provider's locale, or `en` without a provider |
| LanguageProviders.ContextSetLocale | frontend/src/lib/hooks/use-language.ts:8-15 | `useLanguage().setLocale`: sets and persists the provider's locale and leaves its log alone; without a provider it does nothing |
| LanguageProviders.ContextMessages | frontend/src/lib/hooks/use-language.ts:27-30 | `useMessages`: the active locale's tree, or the `en` tree without a provider |
| LanguageProviders.ContextTranslation | frontend/src/components/providers/LanguageProvider.tsx:32-37 | without a provider the key is returned unchanged, whatever the fallback |
| LanguageProviders.ContextTranslate | frontend/src/components/providers/LanguageProvider.tsx:32-37 | calls the context's `translate`; only a provider logs misses, and its locale, storage and `lang` stay as they were |
| LanguageProviders.GreetingResolves | frontend/src/i18n/utils.ts:7-19 | in the tree `{greeting: {hello: "Hello"}}`, the key `greeting.hello` resolves to `Hello` and `greeting.bye` to nothing |
| LanguageProviders.GreetingLookups | frontend/src/components/providers/LanguageProvider.tsx:71-86 | in the tree `{greeting: {hello: "Hello"}}`, `greeting.hello` gives `Hello`; `greeting.bye` gives the fallback, or without one the key |
| UseLanguage.Prefix | frontend/src/lib/hooks/use-language.ts:19 | the prefix is empty exactly for a missing or empty namespace, and is otherwise the namespace followed by a dot |
| UseLanguage.FullKey | frontend/src/lib/hooks/use-language.ts:19-22 | a non-empty namespace prefixes `ns + "."`; a missing or empty one leaves the key unchanged |
| UseLanguage.NamespacedTranslate | frontend/src/lib/hooks/use-language.ts:17-25 | the lookup `useTranslations` returns translates the prefixed key and forwards the fallback untouched; the locale, storage and `lang` stay as they were |
| UseLanguage.LookupSwitchLookup | frontend/src/lib/hooks/use-language.ts:8-25 | a lookup, a locale switch and a second lookup: the second reads the new locale's tree, and storage and `lang` stay consistent |
| UseLanguage.NamespacedLookup | frontend/src/lib/hooks/use-language.ts:22 | under a namespace leading to a sub-tree, keys resolve in that sub-tree; a miss without fallback shows the full prefixed key |
| UseLanguage.EmptyNamespaceIsNone | frontend/src/lib/hooks/use-language.ts:19 | an empty namespace and no namespace both leave the key as it is |
| UseLanguage.GreetingNamespacedLookup | frontend/src/lib/hooks/use-language.ts:22 | in the example tree, namespace `greeting` with key `hello` gives `Hello` |
| TemplatesTab.ByType | frontend/src/components/podcasts/TemplatesTab.tsx:16 | every model kept has the requested type and comes from the input |
| TemplatesTab.ByTypeKeepsAll | frontend/src/components/podcasts/TemplatesTab.tsx:16 | every model of the input that has the requested type is kept |
| TemplatesTab.ModelsByProvider | frontend/src/components/podcasts/TemplatesTab.tsx:14-24 | the fold returns exactly the reference grouping of the models of the type, and creates its keys in the order providers first appear |
| TemplatesTab.NamesOfSnoc | frontend/src/components/podcasts/TemplatesTab.tsx:21 | a further model appends its name to its provider's names, if it has the type |
| TemplatesTab.ProvidersSnoc | frontend/src/components/podcasts/TemplatesTab.tsx:18-19 | a further model of the type adds its provider to the keys |
| TemplatesTab.NamesNonEmptyIffProvider | frontend/src/components/podcasts/TemplatesTab.tsx:17-21 | a provider has names exactly when it has a model of the type |
| TemplatesTab.GroupedSnoc | frontend/src/components/podcasts/TemplatesTab.tsx:17-22 | one fold step creates an empty list for a new provider, then appends the name |
| TemplatesTab.GroupedByType | frontend/src/components/podcasts/TemplatesTab.tsx:15-16 | filtering by type before grouping changes nothing |
| TemplatesTab.GroupedKeys | frontend/src/components/podcasts/TemplatesTab.tsx:17-21 | a provider is a key exactly when some model of the type has it, and its list is non-empty |
| TemplatesTab.NamesInInputOrder | frontend/src/components/podcasts/TemplatesTab.tsx:21 | names from earlier models come before names from later ones |
| TemplatesTab.SingleModelNames | frontend/src/components/podcasts/TemplatesTab.tsx:21 | one model adds its name exactly once, to its own provider only, so duplicates are kept |
| TemplatesTab.NoModelOfTypeIsEmpty | frontend/src/components/podcasts/TemplatesTab.tsx:23 | no model of the type, the empty input included, gives the empty map |
| TemplatesTab.ProviderOrderByType | frontend/src/components/podcasts/TemplatesTab.tsx:15-19 | filtering by type before the fold leaves the order of key creation unchanged |
| TemplatesTab.GroupedCount | frontend/src/components/podcasts/TemplatesTab.tsx:15-23 | providers in first-appearance order list each key once, and the name counts sum to the number of models of the type |

## Left out

- Client storage and the document element are fields of the provider (`storage`, `docLang`). The `typeof window` and `typeof document` guards for server rendering are not modelled.
- `console.warn` is the `warnings` log. `process.env.NODE_ENV` is the constant `production`, given when the provider is built.
- React plumbing is left out: `useCallback`/`useMemo` memoisation, re-rendering of subscribed components, and effect scheduling. The constructor states the settled outcome of mounting. It leaves out the transient write of `en` to storage that happens before the stored value is adopted.
- In the source, `translate` and the function `useTranslations` returns close over the locale of the render that created them. So calling it again inside the same event handler, after `setLocale`, still reads the old tree. In the model every lookup reads the provider's current locale. That matches the source only for lookups made once the provider has re-rendered.
- `useLanguageContext` throws when the context is missing. That error is unreachable, because the context always has its default value, so `Context` has no "absent" case.
- `TemplatesTab.Model` carries only the name, provider and type that the grouping reads. The source's `type` field is called `modelType`, because `type` is a Dafny keyword. The rest of the `Model` type (in `lib/types/models`) is not part of this model.
- JavaScript's `in` and property lookup walk the prototype chain. So a key segment or provider named like `toString` or `constructor` behaves differently there. The model uses plain maps instead.
- `ModelsByProvider`'s `keys` is the order in which keys are created. A JavaScript object lists array-index keys such as `"1"` first, in numeric order, and the model does not capture this.
- The diagnostic's printed text is not modelled. The `warnings` log records the key and the locale that the text names.
- The contents of the `en` and `vi` message files are not part of this model. They are parameters of `MessageTable`.
- The `next-intl` request configuration (`frontend/src/i18n/request.ts`) and `next-intl`'s own `useTranslations` are a foreign library and are left out. So are the layout, all rendering, forms and the remote-data hooks.
