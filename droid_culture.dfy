/**
 * The Android culture resolver: the locale Android reports is canonicalised,
 * rewritten through the Android override table, and resolved through the
 * tiers "candidate, language-code fallback, English".
 */
module Droid {
  import opened Localization
  import Events

  /** `s.Replace("_", "-")`: every underscore becomes a hyphen, nothing else changes. */
  function ReplaceUnderscores(s: string): (r: string)
    ensures |r| == |s|
    ensures forall i :: 0 <= i < |s| ==> r[i] == (if s[i] == '_' then '-' else s[i])
  {
    if |s| == 0 then ""
    else [if s[0] == '_' then '-' else s[0]] + ReplaceUnderscores(s[1..])
  }

  /** A canonical tag holds no underscore, and canonicalising it again changes nothing. */
  lemma ReplaceUnderscoresCanonical(s: string)
    ensures '_' !in ReplaceUnderscores(s)
    ensures ReplaceUnderscores(ReplaceUnderscores(s)) == ReplaceUnderscores(s)
  {
  }

  /** The tags the Android override table rewrites. */
  const OverrideTags: set<string> := {"ms-BN", "ms-MY", "ms-SG", "in-ID", "gsw-CH", "iw", "iw-IL"}

  /**
   * The Android override table: tags that are no .NET culture, or that .NET
   * names differently, are rewritten; every other tag passes through.
   */
  function AndroidToDotnetLanguage(androidLanguage: string): (netLanguage: string)
    ensures androidLanguage !in OverrideTags ==> netLanguage == androidLanguage
    ensures androidLanguage in OverrideTags ==> netLanguage in {"ms", "id-ID", "de-CH", "he"}
    ensures netLanguage !in OverrideTags
  {
    match androidLanguage
    case "ms-BN" => "ms"
    case "ms-MY" => "ms"
    case "ms-SG" => "ms"
    case "in-ID" => "id-ID"
    case "gsw-CH" => "de-CH"
    case "iw" => "he"
    case "iw-IL" => "he"
    case _ => androidLanguage
  }

  /** The entries of the Android override table. */
  lemma OverrideTable()
    ensures AndroidToDotnetLanguage("ms-BN") == "ms"
    ensures AndroidToDotnetLanguage("ms-MY") == "ms"
    ensures AndroidToDotnetLanguage("ms-SG") == "ms"
    ensures AndroidToDotnetLanguage("in-ID") == "id-ID"
    ensures AndroidToDotnetLanguage("gsw-CH") == "de-CH"
    ensures AndroidToDotnetLanguage("iw") == "he"
    ensures AndroidToDotnetLanguage("iw-IL") == "he"
  {
  }

  /** Rewriting an already rewritten tag changes nothing. */
  lemma OverrideIdempotent(tag: string)
    ensures AndroidToDotnetLanguage(AndroidToDotnetLanguage(tag)) == AndroidToDotnetLanguage(tag)
  {
  }

  /**
   * The Android fallback table, keyed by the language code of the candidate:
   * "gsw" becomes "de-CH", every other language code stands for itself.
   */
  function ToDotnetFallbackLanguage(platformString: string): (netLanguage: string)
    ensures LanguageCode(platformString) == "gsw" ==> netLanguage == "de-CH"
    ensures LanguageCode(platformString) != "gsw" ==> netLanguage == LanguageCode(platformString)
  {
    var languageCode := LanguageCode(platformString);
    match languageCode
    case "gsw" => "de-CH"
    case _ => languageCode
  }

  /**
   * The culture name the override tier hands to `new CultureInfo`: the
   * canonical tag when the table does not rewrite it, the table entry when
   * it does; in either case it holds no underscore and is no table key.
   */
  function Candidate(androidLocale: string): (netLanguage: string)
    ensures ReplaceUnderscores(androidLocale) !in OverrideTags ==> netLanguage == ReplaceUnderscores(androidLocale)
    ensures ReplaceUnderscores(androidLocale) in OverrideTags ==> netLanguage in {"ms", "id-ID", "de-CH", "he"}
    ensures '_' !in netLanguage
    ensures netLanguage !in OverrideTags
  {
    ReplaceUnderscoresCanonical(androidLocale);
    AndroidToDotnetLanguage(ReplaceUnderscores(androidLocale))
  }

  /**
   * The culture `UpdateCultureInfo` stores for the Android locale whose
   * `ToString()` is `androidLocale`, when the runtime knows the cultures `known`.
   */
  function ResolvedCulture(androidLocale: string, known: KnownCultures): (ci: CultureName)
    ensures ci in known
    ensures ci == Candidate(androidLocale) <==> Candidate(androidLocale) in known
    ensures Candidate(androidLocale) !in known ==>
      (ci == ToDotnetFallbackLanguage(Candidate(androidLocale)) <==> ToDotnetFallbackLanguage(Candidate(androidLocale)) in known)
    ensures Candidate(androidLocale) !in known && ToDotnetFallbackLanguage(Candidate(androidLocale)) !in known ==> ci == "en"
  {
    var netLanguage := Candidate(androidLocale);
    TryCultures(netLanguage, ToDotnetFallbackLanguage(netLanguage), known)
  }

  /** Underscores and hyphens are the same separator: a tag resolves like its canonical form. */
  lemma SeparatorInsensitive(androidLocale: string, known: KnownCultures)
    ensures ResolvedCulture(androidLocale, known) == ResolvedCulture(ReplaceUnderscores(androidLocale), known)
  {
    ReplaceUnderscoresCanonical(androidLocale);
  }

  /**
   * A tag of the override table resolves to its table entry whenever the
   * runtime knows that entry, even when the tag itself is a known culture.
   */
  lemma OverridePrecedence(androidLocale: string, known: KnownCultures)
    requires ReplaceUnderscores(androidLocale) in OverrideTags
    requires AndroidToDotnetLanguage(ReplaceUnderscores(androidLocale)) in known
    ensures ResolvedCulture(androidLocale, known) == AndroidToDotnetLanguage(ReplaceUnderscores(androidLocale))
    ensures ResolvedCulture(androidLocale, known) != ReplaceUnderscores(androidLocale)
  {
  }

  /** A tag outside the table that the runtime knows is stored as it is (after canonicalising). */
  lemma DirectCulture(androidLocale: string, known: KnownCultures)
    requires ReplaceUnderscores(androidLocale) !in OverrideTags
    requires ReplaceUnderscores(androidLocale) in known
    ensures ResolvedCulture(androidLocale, known) == ReplaceUnderscores(androidLocale)
  {
  }

  /** A tag without underscores is already canonical. */
  lemma CanonicalUnchanged(tag: string)
    requires '_' !in tag
    ensures ReplaceUnderscores(tag) == tag
  {
  }

  /** Android's "language_REGION" form canonicalises to "language-REGION". */
  lemma CanonicalRegioned(language: string, region: string)
    requires '_' !in language && '_' !in region
    ensures ReplaceUnderscores(language + "_" + region) == language + "-" + region
  {
  }

  /** A Malay tag of Malaysia, as Android reports it, resolves to "ms". */
  lemma MalayScenario(known: KnownCultures)
    requires "ms" in known
    ensures ResolvedCulture("ms_MY", known) == "ms"
  {
    CanonicalRegioned("ms", "MY");
    assert "ms" + "_" + "MY" == "ms_MY" && "ms" + "-" + "MY" == "ms-MY";
  }

  /** Android's code for Indonesian is renamed to the .NET one. */
  lemma IndonesianScenario(known: KnownCultures)
    requires "id-ID" in known
    ensures ResolvedCulture("in_ID", known) == "id-ID"
  {
    CanonicalRegioned("in", "ID");
    assert "in" + "_" + "ID" == "in_ID" && "in" + "-" + "ID" == "in-ID";
  }

  /** Swiss German in Switzerland becomes German (Switzerland). */
  lemma SwissGermanScenario(known: KnownCultures)
    requires "de-CH" in known
    ensures ResolvedCulture("gsw_CH", known) == "de-CH"
  {
    CanonicalRegioned("gsw", "CH");
    assert "gsw" + "_" + "CH" == "gsw_CH" && "gsw" + "-" + "CH" == "gsw-CH";
  }

  /** The legacy Hebrew code, bare and with its region, becomes "he". */
  lemma HebrewScenario(known: KnownCultures)
    requires "he" in known
    ensures ResolvedCulture("iw", known) == "he"
    ensures ResolvedCulture("iw_IL", known) == "he"
  {
    CanonicalUnchanged("iw");
    assert Candidate("iw") == "he";
    CanonicalRegioned("iw", "IL");
    assert "iw" + "_" + "IL" == "iw_IL" && "iw" + "-" + "IL" == "iw-IL";
    assert Candidate("iw_IL") == "he";
  }

  /**
   * English in Spain is no .NET culture, so "en_ES" falls back to the
   * language code "en".
   */
  lemma RegionFallbackScenario(known: KnownCultures)
    requires "en-ES" !in known
    ensures ResolvedCulture("en_ES", known) == "en"
  {
    CanonicalRegioned("en", "ES");
    assert "en" + "_" + "ES" == "en_ES" && "en" + "-" + "ES" == "en-ES";
    LanguageCodeOfRegioned("en", "ES");
    assert Candidate("en_ES") == "en-ES";
    assert ToDotnetFallbackLanguage("en-ES") == "en";
  }

  /** A Swiss German tag outside the override table falls back to "de-CH". */
  lemma DialectFallbackScenario(known: KnownCultures)
    requires "gsw-LI" !in known && "de-CH" in known
    ensures ResolvedCulture("gsw_LI", known) == "de-CH"
  {
    CanonicalRegioned("gsw", "LI");
    assert "gsw" + "_" + "LI" == "gsw_LI" && "gsw" + "-" + "LI" == "gsw-LI";
    LanguageCodeOfRegioned("gsw", "LI");
    assert Candidate("gsw_LI") == "gsw-LI";
    assert ToDotnetFallbackLanguage("gsw-LI") == "de-CH";
  }

  /** A tag that neither tier covers ends in English. */
  lemma DefaultScenario(known: KnownCultures)
    requires "zz-ZZ" !in known && "zz" !in known
    ensures ResolvedCulture("zz_ZZ", known) == "en"
  {
    CanonicalRegioned("zz", "ZZ");
    assert "zz" + "_" + "ZZ" == "zz_ZZ" && "zz" + "-" + "ZZ" == "zz-ZZ";
    LanguageCodeOfRegioned("zz", "ZZ");
    assert Candidate("zz_ZZ") == "zz-ZZ";
    assert ToDotnetFallbackLanguage("zz-ZZ") == "zz";
  }

  /**
   * An empty tag is not forced to "en": `new CultureInfo("")` is tried first,
   * so when the runtime accepts the empty name that is what is stored.
   */
  lemma EmptyTagTriedFirst(known: KnownCultures)
    requires "" in known
    ensures ResolvedCulture("", known) == ""
  {
  }

  /**
   * The Android `ICulture` implementation: the bound resource bundle, the
   * current culture and the `CultureInfoChanged` event.
   */
  class Culture {
    /** The cultures the .NET runtime can construct. */
    const known: KnownCultures
    const resourceAssembly: Option<Assembly>
    const baseResourceName: Option<string>
    /** The assemblies that were loaded when the culture was built. */
    ghost const assemblies: seq<Assembly>
    var cultureInfo: CultureName
    /** The invocation list of `CultureInfoChanged`. */
    var cultureInfoChanged: seq<Events.Listener>

    /**
     * Binds the first loaded assembly carrying the resources attribute and
     * resolves the culture of the default locale.
     */
    constructor (assemblies: seq<Assembly>, defaultLocale: string, known: KnownCultures)
      ensures this.known == known && this.assemblies == assemblies
      ensures Valid()
      ensures cultureInfo == ResolvedCulture(defaultLocale, known)
      ensures cultureInfoChanged == []
    {
      this.known := known;
      this.assemblies := assemblies;
      var assembly, baseName := ScanAssemblies(assemblies);
      resourceAssembly, baseResourceName := assembly, baseName;
      cultureInfo := "en";
      cultureInfoChanged := [];
      new;
      UpdateCultureInfo(None, defaultLocale);
    }

    /**
     * The invariant of the culture: the bundle is the one the start-up scan
     * binds, and the stored culture is one the runtime can construct.
     */
    ghost predicate Valid()
      reads this
    {
      && BoundTo(assemblies, resourceAssembly, baseResourceName)
      && cultureInfo in known
    }

    /**
     * The `ICulture` properties a consumer reads: the bundle of the first
     * attributed assembly and a culture the runtime knows.
     */
    function View(): (v: ICultureView)
      requires Valid()
      reads this
      ensures BoundTo(assemblies, v.resourceAssembly, v.baseResourceName)
      ensures v.cultureInfo == cultureInfo && v.cultureInfo in known
    {
      ICultureView(resourceAssembly, baseResourceName, cultureInfo)
    }

    /** `CultureInfoChanged += handler`. */
    method Subscribe(handler: Events.Listener)
      requires Valid()
      modifies this`cultureInfoChanged
      ensures Valid()
      ensures cultureInfoChanged == old(cultureInfoChanged) + [handler]
    {
      cultureInfoChanged := cultureInfoChanged + [handler];
    }

    /** `CultureInfoChanged -= handler`. */
    method Unsubscribe(handler: Events.Listener)
      requires Valid()
      modifies this`cultureInfoChanged
      ensures Valid()
      ensures cultureInfoChanged == RemoveLast(old(cultureInfoChanged), handler)
    {
      cultureInfoChanged := RemoveLast(cultureInfoChanged, handler);
    }

    /**
     * Android reports a new locale (`None` for a null locale, which means the
     * default one): the culture is re-resolved first, then every handler is
     * handed the new culture.
     */
    method NotifyAndroidLocaleChanged(androidLocale: Option<string>, defaultLocale: string)
      requires Valid()
      modifies this`cultureInfo, set l | l in cultureInfoChanged
      ensures Valid()
      ensures cultureInfo == ResolvedCulture(if androidLocale.Some? then androidLocale.value else defaultLocale, known)
      ensures cultureInfoChanged == old(cultureInfoChanged)
      ensures forall l :: l in cultureInfoChanged ==>
        l.received == old(l.received) + Repeat(cultureInfo, multiset(cultureInfoChanged)[l])
    {
      UpdateCultureInfo(androidLocale, defaultLocale);
      OnCultureInfoChanged();
    }

    /** Raises `CultureInfoChanged` with the current culture. */
    method OnCultureInfoChanged()
      modifies set l | l in cultureInfoChanged
      ensures forall l :: l in cultureInfoChanged ==>
        l.received == old(l.received) + Repeat(cultureInfo, multiset(cultureInfoChanged)[l])
    {
      Events.Raise(cultureInfoChanged, CultureInfoChangedEventArgs(cultureInfo));
    }

    /**
     * Resolves the given locale (the default one when `None`) through the
     * override table and the construction tiers, and stores the result.
     */
    method UpdateCultureInfo(androidLocale: Option<string>, defaultLocale: string)
      modifies this`cultureInfo
      ensures cultureInfo in known
      ensures cultureInfo == ResolvedCulture(if androidLocale.Some? then androidLocale.value else defaultLocale, known)
    {
      var locale := if androidLocale.None? then defaultLocale else androidLocale.value;
      var netLanguage := AndroidToDotnetLanguage(ReplaceUnderscores(locale));
      var ci: CultureName;
      if netLanguage in known {
        ci := netLanguage;
      } else {
        var fallback := ToDotnetFallbackLanguage(netLanguage);
        if fallback in known {
          ci := fallback;
        } else {
          ci := "en";
        }
      }
      cultureInfo := ci;
    }
  }
}
