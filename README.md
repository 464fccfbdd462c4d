# Locale resolution and translation lookup of Xamarin.Forms.Mvvm

This project is a Dafny model of the localisation core of Xamarin.Forms.Mvvm. It covers three parts:

- the two platform culture resolvers, `Culture` on Android and `Culture` on iOS. Each one takes the locale the operating system reports and rewrites some tags through an override table. It then tries to build a .NET culture from the result. When that fails it maps the language code through a fallback table and tries again. Its last resort is `"en"`. Each resolver stores the culture it found and raises `CultureInfoChanged`. At start-up it binds the first loaded assembly that carries `AppResourcesBaseNameAttribute`.
- the `TranslationService`. It holds the current culture and a resource manager. `Translate` returns `""` for a null or blank key. For any other key it returns the catalog entry, or the key itself when the catalog has none. When the platform raises a change event, the service adopts the event's culture first and only then raises its own event.
- the wiring between the two. It follows one locale change from the platform's notification to the service's subscribers.

## Modules

- `Localization` (localization.dfy) holds the shared definitions:
  - culture names, and `KnownCultures`, the set of names the .NET runtime can construct. It holds `"en"` by definition.
  - assemblies with their resources attribute, and the start-up assembly scan.
  - the language-code split of an identifier, and the tier ladder of `UpdateCultureInfo`.
  - the removal rule of a C# event (`-=` removes a handler's last occurrence).
- `Events` (events.dfy): the platforms' `CultureInfoChanged` as an ordered invocation list of `Listener`s. Each listener keeps a log of the cultures it was handed.
- `Droid` (droid_culture.dfy) and `Ios` (ios_culture.dfy): the two resolvers. Each has its own tables, its own resolution function `ResolvedCulture`, and its own `Culture` class. The class has the fields the source updates (`cultureInfo`, the handler list) and the methods of the source.
- `Translation` (translation_service.dfy): `string.IsNullOrWhiteSpace`, the resource manager, the `TranslationService` class, and `Subscriber`, a handler that translates a key through the service each time it is called.
- `PlatformTables` (platform_tables.dfy): where the Android and iOS tables agree and where they differ.
- `Propagation` (propagation.dfy): start-up (platform first, then the service built over it) and one locale change carried through platform and service.

Foreign parts are parameters:
- `new CultureInfo(name)` succeeds exactly when `name` is in a `KnownCultures` set.
- `Java.Util.Locale.Default` is the parameter `defaultLocale`.
- `NSLocale.PreferredLanguages` is the parameter `preferredLanguages`.
- `AppDomain.CurrentDomain.GetAssemblies()` is a sequence of `Assembly` values.
- What `ResourceManager.GetString` finds is a partial map from (key, culture) to string.
- `PlatformCulture` is not part of this model. Its `LanguageCode` is taken to be the part of the identifier before the first `-`, as the comment at Xamarin.Forms.Mvvm.Droid/Culture.cs:111 describes it ("the first part of the identifier").

Notes on the code:
- The empty Android tag is not replaced by `"en"`: it goes to `new CultureInfo("")` first, and .NET accepts that name as the invariant culture, so the resolver stores it (`Droid.EmptyTagTriedFirst`).
- An override table entry is not stored at once: it goes through the construction tiers too, and is stored only when the runtime knows it; otherwise the fallback tier runs on it (`Droid.ResolvedCulture`, `Droid.OverridePrecedence`).
- When no assembly carries the attribute, the service passes a null base name and a null assembly to `new ResourceManager(string, Assembly)`. .NET rejects null arguments there with `ArgumentNullException`, so the service is never built. The model does not have that failure; see the line on the constructor under "## Left out".

## Model

| member | source | states |
|---|---|---|
| Localization.FirstAttributed | Xamarin.Forms.Mvvm.Droid/Culture.cs:24-33 | the index it gives is that of an assembly carrying the attribute, with no attributed assembly before it, or the length of the list when none carries it |
| Localization.LaterAssembliesIgnored | Xamarin.Forms.Mvvm.Droid/Culture.cs:31 | once an attributed assembly has been seen, appending more assemblies does not change which one is bound (the scan stops at the first match) |
| Localization.ScanAssemblies | Xamarin.Forms.Mvvm.Droid/Culture.cs:24-33 | the scan binds exactly the first attributed assembly and its attribute's base name; both stay unset exactly when no assembly carries the attribute (the iOS scan at Xamarin.Forms.Mvvm.iOS/Culture.cs:24-33 is the same loop) |
| Localization.LanguageCode | Xamarin.Forms.Mvvm.Droid/Culture.cs:111 | the language code is a prefix of the identifier, holds no `-`, and ends at the identifier's end or at its first `-` |
| Localization.LanguageCodeOfRegioned | Xamarin.Forms.Mvvm.Droid/Culture.cs:111 | the language code of `language-REGION` is `language` |
| Localization.LanguageCodeOfBare | Xamarin.Forms.Mvvm.iOS/Culture.cs:106 | an identifier without `-` is its own language code |
| Localization.TryCultures | Xamarin.Forms.Mvvm.Droid/Culture.cs:58-77 | the stored culture is always one the runtime knows; it is the candidate exactly when the candidate is known, otherwise the fallback exactly when the fallback is known, otherwise `"en"` |
| Localization.RemoveLast | Xamarin.Forms.Mvvm/Localization/TranslationService.cs:10 | removing a handler from an event takes out its last occurrence and leaves a list without that handler unchanged |
| Localization.UnsubscribeRemovesOne | Xamarin.Forms.Mvvm/Localization/TranslationService.cs:10 | removing a subscribed handler shortens the list by one and removes exactly one occurrence of it from the list's multiset |
| Events.Raise | Xamarin.Forms.Mvvm.Droid/Culture.cs:44 | raising the event calls every handler in the list with the same culture, a handler subscribed n times receiving it n times |
| Droid.ReplaceUnderscores | Xamarin.Forms.Mvvm.Droid/Culture.cs:54 | canonicalising keeps the length and turns every `_` into `-`, leaving every other character alone |
| Droid.ReplaceUnderscoresCanonical | Xamarin.Forms.Mvvm.Droid/Culture.cs:54 | a canonical tag holds no `_`, and canonicalising it again changes nothing |
| Droid.AndroidToDotnetLanguage | Xamarin.Forms.Mvvm.Droid/Culture.cs:80-107 | a tag outside the Android table passes unchanged; a table tag becomes one of `ms`, `id-ID`, `de-CH`, `he`; no output is itself a table tag |
| Droid.OverrideTable | Xamarin.Forms.Mvvm.Droid/Culture.cs:85-104 | `ms-BN`, `ms-MY`, `ms-SG` map to `ms`, `in-ID` to `id-ID`, `gsw-CH` to `de-CH`, `iw` and `iw-IL` to `he` |
| Droid.OverrideIdempotent | Xamarin.Forms.Mvvm.Droid/Culture.cs:85-104 | applying the Android table twice is the same as applying it once |
| Droid.ToDotnetFallbackLanguage | Xamarin.Forms.Mvvm.Droid/Culture.cs:109-123 | language code `gsw` falls back to `de-CH`; every other language code falls back to itself |
| Droid.Candidate | Xamarin.Forms.Mvvm.Droid/Culture.cs:54 | stands for `AndroidToDotnetLanguage(androidLocale.ToString().Replace("_", "-"))`: the canonical tag when the table does not rewrite it, else one of the table's entries; it never holds `_` and is never a table tag |
| Droid.ResolvedCulture | Xamarin.Forms.Mvvm.Droid/Culture.cs:46-78 | the resolved culture is known to the runtime; it is the canonicalised, table-rewritten tag exactly when that tag is known, else the fallback exactly when that is known, else `"en"` |
| Droid.SeparatorInsensitive | Xamarin.Forms.Mvvm.Droid/Culture.cs:54 | a tag resolves exactly like its underscore-free form, so `_` and `-` are the same separator |
| Droid.OverridePrecedence | Xamarin.Forms.Mvvm.Droid/Culture.cs:54-60 | a table tag whose entry the runtime knows resolves to the entry and never to the tag itself, even when the tag is a known culture |
| Droid.DirectCulture | Xamarin.Forms.Mvvm.Droid/Culture.cs:58-60 | a known tag outside the table is stored unchanged (after canonicalising) |
| Droid.CanonicalRegioned | Xamarin.Forms.Mvvm.Droid/Culture.cs:54 | Android's `language_REGION` canonicalises to `language-REGION` |
| Droid.CanonicalUnchanged | Xamarin.Forms.Mvvm.Droid/Culture.cs:54 | a tag without `_` is already canonical |
| Droid.MalayScenario | Xamarin.Forms.Mvvm.Droid/Culture.cs:88-90 | `ms_MY` resolves to `ms` |
| Droid.IndonesianScenario | Xamarin.Forms.Mvvm.Droid/Culture.cs:92-93 | `in_ID` resolves to `id-ID` |
| Droid.SwissGermanScenario | Xamarin.Forms.Mvvm.Droid/Culture.cs:95-96 | `gsw_CH` resolves to `de-CH` |
| Droid.HebrewScenario | Xamarin.Forms.Mvvm.Droid/Culture.cs:98-100 | `iw` and `iw_IL` resolve to `he` |
| Droid.RegionFallbackScenario | Xamarin.Forms.Mvvm.Droid/Culture.cs:62-68 | `en_ES`, no .NET culture, falls back to its language code `en` |
| Droid.DialectFallbackScenario | Xamarin.Forms.Mvvm.Droid/Culture.cs:113-116 | a Swiss German tag outside the override table (`gsw_LI`) falls back to `de-CH` |
| Droid.DefaultScenario | Xamarin.Forms.Mvvm.Droid/Culture.cs:70-73 | a tag neither tier covers (`zz_ZZ`) ends in `en` |
| Droid.EmptyTagTriedFirst | Xamarin.Forms.Mvvm.Droid/Culture.cs:54-60 | the empty tag is tried as a culture first and is stored when the runtime accepts it |
| Droid.Culture.constructor | Xamarin.Forms.Mvvm.Droid/Culture.cs:22-36 | the new object binds the first attributed assembly of the loaded ones (or nothing), holds the culture resolved from the default locale, has no handlers, and satisfies the invariant `Valid` (the bundle is the scan's and the culture is known) |
| Droid.Culture.View | Xamarin.Forms.Mvvm.Droid/Culture.cs:18-20 | the `ICulture` properties a consumer reads are the bundle of the first attributed loaded assembly (or none) and the stored culture, which the runtime can construct |
| Droid.Culture.Subscribe | Xamarin.Forms.Mvvm.Droid/Culture.cs:14 | subscribing appends the handler to the invocation list and keeps `Valid` |
| Droid.Culture.Unsubscribe | Xamarin.Forms.Mvvm.Droid/Culture.cs:14 | unsubscribing removes the handler's last occurrence and keeps `Valid` |
| Droid.Culture.NotifyAndroidLocaleChanged | Xamarin.Forms.Mvvm.Droid/Culture.cs:38-44 | the culture is re-resolved from the given locale (the default locale for null) before the event, every handler receives exactly the new culture once per subscription, the handler list is unchanged, and `Valid` is kept |
| Droid.Culture.OnCultureInfoChanged | Xamarin.Forms.Mvvm.Droid/Culture.cs:44 | every handler receives the stored culture once per subscription |
| Droid.Culture.UpdateCultureInfo | Xamarin.Forms.Mvvm.Droid/Culture.cs:46-78 | the stored culture becomes `Droid.ResolvedCulture` of the given locale, or of the default locale for null, which the runtime knows, and nothing else changes |
| Ios.IosToDotnetLanguage | Xamarin.Forms.Mvvm.iOS/Culture.cs:82-102 | a tag outside the iOS table passes unchanged; a table tag becomes `ms` or `de-CH`; no output is itself a table tag |
| Ios.OverrideTable | Xamarin.Forms.Mvvm.iOS/Culture.cs:88-99 | `ms-MY` and `ms-SG` map to `ms`, `gsw-CH` to `de-CH` |
| Ios.OverrideIdempotent | Xamarin.Forms.Mvvm.iOS/Culture.cs:88-99 | applying the iOS table twice is the same as applying it once |
| Ios.ToDotnetFallbackLanguage | Xamarin.Forms.Mvvm.iOS/Culture.cs:104-121 | language code `pt` falls back to `pt-PT`, `gsw` to `de-CH`, every other language code to itself |
| Ios.Candidate | Xamarin.Forms.Mvvm.iOS/Culture.cs:50-56 | stands for the candidate of the first tier: `en` when there is no preferred language; the first preferred language as iOS reports it when the table does not rewrite it, else `ms` or `de-CH`; never a table tag |
| Ios.ResolvedCulture | Xamarin.Forms.Mvvm.iOS/Culture.cs:48-80 | the resolved culture is known to the runtime; it is the candidate (the first preferred language through the table, `en` when there is none) exactly when the candidate is known, else the fallback exactly when that is known, else `en` |
| Ios.NoPreferenceIsEnglish | Xamarin.Forms.Mvvm.iOS/Culture.cs:50-52 | with no preferred language the culture is `en` |
| Ios.OnlyFirstPreferenceCounts | Xamarin.Forms.Mvvm.iOS/Culture.cs:52-55 | the preferred languages after the first play no part |
| Ios.OverridePrecedence | Xamarin.Forms.Mvvm.iOS/Culture.cs:54-62 | a table tag whose entry the runtime knows resolves to the entry and never to the tag itself |
| Ios.UnderscoreNotCanonicalised | Xamarin.Forms.Mvvm.iOS/Culture.cs:54-55 | an iOS tag is not separator-normalised: `ms_MY` is no table key and passes the table unchanged. That it then resolves to `en` when the runtime does not know it rests on the assumed language-code split of `PlatformCulture` (the part before the first `-`), which finds no `-` in `ms_MY` |
| Ios.MalayBruneiNotRemapped | Xamarin.Forms.Mvvm.iOS/Culture.cs:88-99 | `ms-BN` is no iOS table key; when the runtime does not know it, it reaches `ms` through the fallback tier |
| Ios.PortugueseFallback | Xamarin.Forms.Mvvm.iOS/Culture.cs:110-111 | a Portuguese tag of a region the runtime does not know falls back to `pt-PT` |
| Ios.Culture.constructor | Xamarin.Forms.Mvvm.iOS/Culture.cs:22-38 | the new object binds the first attributed assembly of the loaded ones (or nothing), holds the culture resolved from the preferred languages, has no handlers, and satisfies the invariant `Valid` |
| Ios.Culture.View | Xamarin.Forms.Mvvm.iOS/Culture.cs:18-20 | the `ICulture` properties a consumer reads are the bundle of the first attributed loaded assembly (or none) and the stored culture, which the runtime can construct |
| Ios.Culture.Subscribe | Xamarin.Forms.Mvvm.iOS/Culture.cs:14 | subscribing appends the handler to the invocation list and keeps `Valid` |
| Ios.Culture.Unsubscribe | Xamarin.Forms.Mvvm.iOS/Culture.cs:14 | unsubscribing removes the handler's last occurrence and keeps `Valid` |
| Ios.Culture.CurrentLocaleDidChange | Xamarin.Forms.Mvvm.iOS/Culture.cs:40-44 | the culture is re-resolved from the current preferred languages before the event, every handler receives exactly the new culture once per subscription, the handler list is unchanged, and `Valid` is kept |
| Ios.Culture.OnCultureInfoChanged | Xamarin.Forms.Mvvm.iOS/Culture.cs:46 | every handler receives the stored culture once per subscription |
| Ios.Culture.UpdateCultureInfo | Xamarin.Forms.Mvvm.iOS/Culture.cs:48-80 | the stored culture becomes `Ios.ResolvedCulture` of the preferred languages, which the runtime knows, and nothing else changes |
| PlatformTables.OverrideTablesAgree | Xamarin.Forms.Mvvm.iOS/Culture.cs:90-96 | `ms-MY`, `ms-SG` and `gsw-CH` are rewritten, and rewritten alike, on both platforms |
| PlatformTables.OverrideTablesDiffer | Xamarin.Forms.Mvvm.iOS/Culture.cs:88-99 | the two override tables differ on exactly `ms-BN`, `in-ID`, `iw` and `iw-IL`, which iOS passes through unchanged |
| PlatformTables.FallbackTablesDiffer | Xamarin.Forms.Mvvm.iOS/Culture.cs:108-118 | the two fallback tables differ exactly on identifiers whose language code is `pt` |
| Translation.IsWhiteSpace | Xamarin.Forms.Mvvm/Localization/TranslationService.cs:39 | stands for .NET's `char.IsWhiteSpace`: the characters of the Unicode categories Zs, Zl and Zp, the controls U+0009 to U+000D, and U+0085 |
| Translation.WhiteSpaceLatin1 | Xamarin.Forms.Mvvm/Localization/TranslationService.cs:39 | below U+0100 exactly tab, line feed, vertical tab, form feed, carriage return, space, U+0085 and U+00A0 are blank |
| Translation.IsNullOrWhiteSpace | Xamarin.Forms.Mvvm/Localization/TranslationService.cs:39 | stands for `string.IsNullOrWhiteSpace`: true for a null key and for a key all of whose characters are blank, the empty key included |
| Translation.NullOrWhiteSpaceConcat | Xamarin.Forms.Mvvm/Localization/TranslationService.cs:39 | a key is blank exactly when both parts of any split of it are blank |
| Translation.TranslationService.constructor | Xamarin.Forms.Mvvm/Localization/TranslationService.cs:19-26 | the resource manager is built from the platform's bound base name and assembly, the current culture is the platform's culture, and there are no subscribers |
| Translation.TranslationService.Translate | Xamarin.Forms.Mvvm/Localization/TranslationService.cs:37-45 | a null or blank key gives `""`; any other key gives its catalog entry under the current culture, or itself when there is none, and then the result is never blank; an empty result means a blank key or an empty entry; only the current culture and the catalog are read |
| Translation.TranslationService.Subscribe | Xamarin.Forms.Mvvm/Localization/TranslationService.cs:10 | subscribing appends the handler to the invocation list |
| Translation.TranslationService.Unsubscribe | Xamarin.Forms.Mvvm/Localization/TranslationService.cs:10 | unsubscribing removes the handler's last occurrence |
| Translation.TranslationService.PlatformCultureDidChange | Xamarin.Forms.Mvvm/Localization/TranslationService.cs:29-33 | the current culture becomes the event's culture before the service's event; every subscriber receives that culture once per subscription, and a translation made inside its handler uses it; no other field of the service changes |
| Translation.TranslationService.OnCultureInfoChanged | Xamarin.Forms.Mvvm/Localization/TranslationService.cs:35 | every subscriber's handler is called with the current culture once per subscription |
| Translation.Subscriber.OnCultureInfoChanged | Xamarin.Forms.Mvvm/Localization/TranslationService.cs:35 | a consumer's handler records the event's culture and what the sender translates its key to at that moment |
| Translation.BlankKeys | Xamarin.Forms.Mvvm/Localization/TranslationService.cs:39-42 | null, `""`, `" "` and `"\t\r\n"` translate to `""` |
| Translation.GreetingScenario | Xamarin.Forms.Mvvm/Localization/TranslationService.cs:44 | with the entry `greeting = Hello` under `en`, `greeting` translates to `Hello` under `en` and to `greeting` under any other culture |
| Translation.TranslateDependsOnCultureAndCatalog | Xamarin.Forms.Mvvm/Localization/TranslationService.cs:44 | two services with the same catalog and current culture translate every key alike |
| Propagation.AndroidLocaleChanged | Xamarin.Forms.Mvvm/Localization/TranslationService.cs:25-35 | after an Android locale change the platform keeps `Valid`, and the platform and the service both hold the culture the locale resolves to; the platform's listeners receive it, and every subscriber of the service receives it and translates under it |
| Propagation.IosLocaleChanged | Xamarin.Forms.Mvvm/Localization/TranslationService.cs:25-35 | after an iOS locale change the platform keeps `Valid`, and the platform and the service both hold the culture the preferred languages resolve to; the platform's listeners receive it, and every subscriber of the service receives it and translates under it |
| Propagation.StartAndroid | Xamarin.Forms.Mvvm/Localization/TranslationService.cs:19-26 | a service built over the Android culture binds the first attributed assembly and starts from the resolved culture, which the runtime knows; the service looks keys up in the given catalog; the platform satisfies `Valid` and uses the given runtime table; the platform has no listener besides the service's handler, and the service has no subscribers |
| Propagation.StartIos | Xamarin.Forms.Mvvm/Localization/TranslationService.cs:19-26 | a service built over the iOS culture binds the first attributed assembly and starts from the resolved culture, which the runtime knows; the service looks keys up in the given catalog; the platform satisfies `Valid` and uses the given runtime table; the platform has no listener besides the service's handler, and the service has no subscribers |

## Left out

- Platform plumbing is not modelled: `Java.Util.Locale`, `NSLocale`, the `NSNotificationCenter` registration at Xamarin.Forms.Mvvm.iOS/Culture.cs:37, `DependencyService.Get`, and the `Lazy` singleton. The locale string, the preferred languages, the loaded assemblies and the platform object are parameters.
- .NET culture construction is membership in a set of known names. Case-insensitive name matching and name canonicalisation by `CultureInfo` are not modelled. A culture is the name it was built from.
- The assumption that .NET always knows `"en"` is built into the type `KnownCultures`. Without it, the third tier at Xamarin.Forms.Mvvm.Droid/Culture.cs:73 would throw out of `UpdateCultureInfo`; the model has no such case.
- `PlatformCulture` is not part of this model. Its language code is taken as the part before the first `-`. Any exception its constructor raises (for example on an empty identifier) is not modelled.
- `ResourceManager` internals are not modelled: `GetString` is a lookup in the catalog map, a foreign oracle with no row of its own. Its culture fallback is folded into the catalog map. The unbound case is the constructor line below.
- `AppResourcesBaseNameAttribute` with a null base name is not modelled: the base name is a string.
- Translation.TranslationService.constructor, Propagation.StartAndroid, Propagation.StartIos: when no assembly carries the resources attribute, the model still builds the service, over an unbound resource manager whose catalog is a free parameter. In .NET `new ResourceManager(null, null)` throws `ArgumentNullException` and the service is never built. The model does not promise that failure.
- Translation.TranslationService.constructor: the `PlatformCulture` property is not kept on the service. The platform object is connected to the service by the `Propagation` methods instead.
- Propagation.AndroidLocaleChanged, Propagation.IosLocaleChanged: the service's handler is called after all of the platform's other listeners. Its position within the platform's invocation list is not modelled.
- Events.Raise: each handler's log records what it received, but not the order in which different handlers were called.
- Threading is not modelled: the context events are delivered in, and any concurrency between notifications.
- Xamarin.Forms.Mvvm/ApplicationBase.cs and the sample app are page and dependency-injection glue with no localisation logic.
- Xamarin.Forms.Mvvm/Localization/TranslateExtension.cs is a one-line delegation to `Translate`. `Translate` is modelled.
- `ICulture`, `CultureInfoChangedEventArgs` and `AppResourcesBaseNameAttribute` are data shapes only: `ICultureView`, `CultureInfoChangedEventArgs`, `AppResourcesBaseNameAttribute`.
