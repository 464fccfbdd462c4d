/**
 * The iOS culture resolver: the first of the user's preferred languages is
 * rewritten through the iOS override table and resolved through the tiers
 * "candidate, language-code fallback, English".
 */
module Ios {
  import opened Localization
  import Events

  /** The tags the iOS override table rewrites. */
  const OverrideTags: set<string> := {"ms-MY", "ms-SG", "gsw-CH"}

  /**
   * The iOS override table: the Malay tags of Malaysia and Singapore become
   * "ms", Swiss German becomes "de-CH", every other tag passes through.
   */
  function IosToDotnetLanguage(iOSLanguage: string): (netLanguage: string)
    ensures iOSLanguage !in OverrideTags ==> netLanguage == iOSLanguage
    ensures iOSLanguage in OverrideTags ==> netLanguage in {"ms", "de-CH"}
    ensures netLanguage !in OverrideTags
  {
    match iOSLanguage
    case "ms-MY" => "ms"
    case "ms-SG" => "ms"
    case "gsw-CH" => "de-CH"
    case _ => iOSLanguage
  }

  /** The entries of the iOS override table. */
  lemma OverrideTable()
    ensures IosToDotnetLanguage("ms-MY") == "ms"
    ensures IosToDotnetLanguage("ms-SG") == "ms"
    ensures IosToDotnetLanguage("gsw-CH") == "de-CH"
  {
  }

  /** Rewriting an already rewritten tag changes nothing. */
  lemma OverrideIdempotent(tag: string)
    ensures IosToDotnetLanguage(IosToDotnetLanguage(tag)) == IosToDotnetLanguage(tag)
  {
  }

  /**
   * The iOS fallback table, keyed by the language code of the candidate:
   * "pt" becomes "pt-PT", "gsw" becomes "de-CH", every other language code
   * stands for itself.
   */
  function ToDotnetFallbackLanguage(platformString: string): (netLanguage: string)
    ensures LanguageCode(platformString) == "pt" ==> netLanguage == "pt-PT"
    ensures LanguageCode(platformString) == "gsw" ==> netLanguage == "de-CH"
    ensures LanguageCode(platformString) !in {"pt", "gsw"} ==> netLanguage == LanguageCode(platformString)
  {
    var languageCode := LanguageCode(platformString);
    match languageCode
    case "pt" => "pt-PT"
    case "gsw" => "de-CH"
    case _ => languageCode
  }

  /**
   * The culture name the override tier hands to `new CultureInfo`: the first
   * preferred language through the table, or "en" when there is none. The
   * tag is taken as iOS reports it; no separator is rewritten.
   */
  function Candidate(preferredLanguages: seq<string>): (netLanguage: string)
    ensures |preferredLanguages| == 0 ==> netLanguage == "en"
    ensures |preferredLanguages| > 0 && preferredLanguages[0] !in OverrideTags ==> netLanguage == preferredLanguages[0]
    ensures |preferredLanguages| > 0 && preferredLanguages[0] in OverrideTags ==> netLanguage in {"ms", "de-CH"}
    ensures netLanguage !in OverrideTags
  {
    if |preferredLanguages| > 0 then IosToDotnetLanguage(preferredLanguages[0]) else "en"
  }

  /**
   * The culture `UpdateCultureInfo` stores when the user's preferred languages
   * are `preferredLanguages` and the runtime knows the cultures `known`.
   */
  function ResolvedCulture(preferredLanguages: seq<string>, known: KnownCultures): (ci: CultureName)
    ensures ci in known
    ensures ci == Candidate(preferredLanguages) <==> Candidate(preferredLanguages) in known
    ensures Candidate(preferredLanguages) !in known ==>
      (ci == ToDotnetFallbackLanguage(Candidate(preferredLanguages)) <==> ToDotnetFallbackLanguage(Candidate(preferredLanguages)) in known)
    ensures Candidate(preferredLanguages) !in known && ToDotnetFallbackLanguage(Candidate(preferredLanguages)) !in known ==> ci == "en"
  {
    var netLanguage := Candidate(preferredLanguages);
    TryCultures(netLanguage, ToDotnetFallbackLanguage(netLanguage), known)
  }

  /** With no preferred language the culture is English. */
  lemma NoPreferenceIsEnglish(known: KnownCultures)
    ensures ResolvedCulture([], known) == "en"
  {
  }

  /** Only the first preferred language takes part in the resolution. */
  lemma OnlyFirstPreferenceCounts(first: string, rest: seq<string>, others: seq<string>, known: KnownCultures)
    ensures ResolvedCulture([first] + rest, known) == ResolvedCulture([first] + others, known)
  {
  }

  /**
   * A tag of the override table resolves to its table entry whenever the
   * runtime knows that entry, even when the tag itself is a known culture.
   */
  lemma OverridePrecedence(first: string, rest: seq<string>, known: KnownCultures)
    requires first in OverrideTags && IosToDotnetLanguage(first) in known
    ensures ResolvedCulture([first] + rest, known) == IosToDotnetLanguage(first)
    ensures ResolvedCulture([first] + rest, known) != first
  {
  }

  /**
   * iOS tags are not canonicalised: an underscore tag is no table key and
   * passes the table unchanged. That it then ends in "en" unless the runtime
   * takes it as it is rests on the assumed language-code split of
   * `PlatformCulture` (the part before the first '-'), which finds no '-' here.
   */
  lemma UnderscoreNotCanonicalised(known: KnownCultures)
    requires "ms_MY" !in known
    ensures IosToDotnetLanguage("ms_MY") == "ms_MY"
    ensures ResolvedCulture(["ms_MY"], known) == "en"
  {
  }

  /** The Malay tag of Brunei is no iOS table key: it resolves like any other tag. */
  lemma MalayBruneiNotRemapped(known: KnownCultures)
    requires "ms-BN" !in known && "ms" in known
    ensures IosToDotnetLanguage("ms-BN") == "ms-BN"
    ensures ResolvedCulture(["ms-BN"], known) == "ms"
  {
    LanguageCodeOfRegioned("ms", "BN");
    assert "ms" + "-" + "BN" == "ms-BN";
    assert Candidate(["ms-BN"]) == "ms-BN";
    assert ToDotnetFallbackLanguage("ms-BN") == "ms";
  }

  /** A Portuguese tag of a region .NET does not know falls back to Portuguese (Portugal). */
  lemma PortugueseFallback(region: string, known: KnownCultures)
    requires "pt-" + region !in known && "pt-PT" in known
    ensures ResolvedCulture(["pt-" + region], known) == "pt-PT"
  {
    LanguageCodeOfRegioned("pt", region);
    assert "pt" + "-" + region == "pt-" + region;
    assert Candidate(["pt-" + region]) == "pt-" + region;
  }

  /**
   * The iOS `ICulture` implementation: the bound resource bundle, the
   * current culture and the `CultureInfoChanged` event.
   */
  class Culture {
    /** The cultures the .NET runtime can construct. */
    const known: KnownCultures
    const resourceAssembly: Option<Assembly>
    const baseResourceName: Option<string>
    /** The assemblies that were loaded when the culture was built. */
    ghost const assemblies: seq<Assembly>
    var cultureInfo: CultureName
    /** The invocation list of `CultureInfoChanged`. */
    var cultureInfoChanged: seq<Events.Listener>

    /**
     * Binds the first loaded assembly carrying the resources attribute and
     * resolves the culture of the preferred languages.
     */
    constructor (assemblies: seq<Assembly>, preferredLanguages: seq<string>, known: KnownCultures)
      ensures this.known == known && this.assemblies == assemblies
      ensures Valid()
      ensures cultureInfo == ResolvedCulture(preferredLanguages, known)
      ensures cultureInfoChanged == []
    {
      this.known := known;
      this.assemblies := assemblies;
      var assembly, baseName := ScanAssemblies(assemblies);
      resourceAssembly, baseResourceName := assembly, baseName;
      cultureInfo := "en";
      cultureInfoChanged := [];
      new;
      UpdateCultureInfo(preferredLanguages);
    }

    /**
     * The invariant of the culture: the bundle is the one the start-up scan
     * binds, and the stored culture is one the runtime can construct.
     */
    ghost predicate Valid()
      reads this
    {
      && BoundTo(assemblies, resourceAssembly, baseResourceName)
      && cultureInfo in known
    }

    /**
     * The `ICulture` properties a consumer reads: the bundle of the first
     * attributed assembly and a culture the runtime knows.
     */
    function View(): (v: ICultureView)
      requires Valid()
      reads this
      ensures BoundTo(assemblies, v.resourceAssembly, v.baseResourceName)
      ensures v.cultureInfo == cultureInfo && v.cultureInfo in known
    {
      ICultureView(resourceAssembly, baseResourceName, cultureInfo)
    }

    /** `CultureInfoChanged += handler`. */
    method Subscribe(handler: Events.Listener)
      requires Valid()
      modifies this`cultureInfoChanged
      ensures Valid()
      ensures cultureInfoChanged == old(cultureInfoChanged) + [handler]
    {
      cultureInfoChanged := cultureInfoChanged + [handler];
    }

    /** `CultureInfoChanged -= handler`. */
    method Unsubscribe(handler: Events.Listener)
      requires Valid()
      modifies this`cultureInfoChanged
      ensures Valid()
      ensures cultureInfoChanged == RemoveLast(old(cultureInfoChanged), handler)
    {
      cultureInfoChanged := RemoveLast(cultureInfoChanged, handler);
    }

    /**
     * iOS posts a locale change; the preferred languages are read again: the
     * culture is re-resolved first, then every handler is handed the new culture.
     */
    method CurrentLocaleDidChange(preferredLanguages: seq<string>)
      requires Valid()
      modifies this`cultureInfo, set l | l in cultureInfoChanged
      ensures Valid()
      ensures cultureInfo == ResolvedCulture(preferredLanguages, known)
      ensures cultureInfoChanged == old(cultureInfoChanged)
      ensures forall l :: l in cultureInfoChanged ==>
        l.received == old(l.received) + Repeat(cultureInfo, multiset(cultureInfoChanged)[l])
    {
      UpdateCultureInfo(preferredLanguages);
      OnCultureInfoChanged();
    }

    /** Raises `CultureInfoChanged` with the current culture. */
    method OnCultureInfoChanged()
      modifies set l | l in cultureInfoChanged
      ensures forall l :: l in cultureInfoChanged ==>
        l.received == old(l.received) + Repeat(cultureInfo, multiset(cultureInfoChanged)[l])
    {
      Events.Raise(cultureInfoChanged, CultureInfoChangedEventArgs(cultureInfo));
    }

    /**
     * Resolves the first preferred language ("en" when there is none) through
     * the override table and the construction tiers, and stores the result.
     */
    method UpdateCultureInfo(preferredLanguages: seq<string>)
      modifies this`cultureInfo
      ensures cultureInfo in known
      ensures cultureInfo == ResolvedCulture(preferredLanguages, known)
    {
      var netLanguage := "en";
      if |preferredLanguages| > 0 {
        var pref := preferredLanguages[0];
        netLanguage := IosToDotnetLanguage(pref);
      }
      var ci: CultureName;
      if netLanguage in known {
        ci := netLanguage;
      } else {
        var fallback := ToDotnetFallbackLanguage(netLanguage);
        if fallback in known {
          ci := fallback;
        } else {
          ci := "en";
        }
      }
      cultureInfo := ci;
    }
  }
}
