/**
 * The service subscribes its `PlatformCultureDidChange` to the platform's
 * `CultureInfoChanged`; these methods follow one locale change from the
 * platform's notification to the service's subscribers.
 */
module Propagation {
  import opened Localization
  import Droid
  import Ios
  import opened Translation

  /**
   * Android reports a new locale: the platform re-resolves and raises its
   * event to its listeners, and the service's handler receives the same event
   * args, adopts the culture and calls its own subscribers, each of which
   * translates under the culture the locale resolved to.
   */
  method AndroidLocaleChanged(platform: Droid.Culture, service: TranslationService,
                              androidLocale: Option<string>, defaultLocale: string)
    requires platform.Valid()
    modifies platform`cultureInfo, set l | l in platform.cultureInfoChanged
    modifies service`currentCultureInfo, set s | s in service.cultureInfoChanged
    ensures platform.cultureInfo ==
      Droid.ResolvedCulture(if androidLocale.Some? then androidLocale.value else defaultLocale, platform.known)
    ensures platform.Valid() && service.currentCultureInfo == platform.cultureInfo
    ensures forall l :: l in platform.cultureInfoChanged ==>
      l.received == old(l.received) + Repeat(platform.cultureInfo, multiset(platform.cultureInfoChanged)[l])
    ensures forall s :: s in service.cultureInfoChanged ==>
      s.log == old(s.log) +
        Repeat(Delivery(platform.cultureInfo, service.Translate(s.probeKey)), multiset(service.cultureInfoChanged)[s])
  {
    platform.NotifyAndroidLocaleChanged(androidLocale, defaultLocale);
    service.PlatformCultureDidChange(CultureInfoChangedEventArgs(platform.cultureInfo));
  }

  /** The same for iOS, whose notification carries no locale: the preferred languages are read again. */
  method IosLocaleChanged(platform: Ios.Culture, service: TranslationService, preferredLanguages: seq<string>)
    requires platform.Valid()
    modifies platform`cultureInfo, set l | l in platform.cultureInfoChanged
    modifies service`currentCultureInfo, set s | s in service.cultureInfoChanged
    ensures platform.cultureInfo == Ios.ResolvedCulture(preferredLanguages, platform.known)
    ensures platform.Valid() && service.currentCultureInfo == platform.cultureInfo
    ensures forall l :: l in platform.cultureInfoChanged ==>
      l.received == old(l.received) + Repeat(platform.cultureInfo, multiset(platform.cultureInfoChanged)[l])
    ensures forall s :: s in service.cultureInfoChanged ==>
      s.log == old(s.log) +
        Repeat(Delivery(platform.cultureInfo, service.Translate(s.probeKey)), multiset(service.cultureInfoChanged)[s])
  {
    platform.CurrentLocaleDidChange(preferredLanguages);
    service.PlatformCultureDidChange(CultureInfoChangedEventArgs(platform.cultureInfo));
  }

  /**
   * A service built over a platform culture starts from the platform's
   * culture and binds the platform's bundle.
   */
  method StartAndroid(assemblies: seq<Assembly>, defaultLocale: string, known: KnownCultures, strings: Catalog)
    returns (platform: Droid.Culture, service: TranslationService)
    ensures fresh(platform) && fresh(service)
    ensures BoundTo(assemblies, service.resourceManager.assembly, service.resourceManager.baseName)
    ensures service.currentCultureInfo == platform.cultureInfo == Droid.ResolvedCulture(defaultLocale, known)
    ensures service.resourceManager.strings == strings
    ensures service.currentCultureInfo in known
    ensures platform.Valid() && platform.known == known && platform.assemblies == assemblies
    ensures platform.cultureInfoChanged == [] && service.cultureInfoChanged == []
  {
    platform := new Droid.Culture(assemblies, defaultLocale, known);
    service := new TranslationService(platform.View(), strings);
  }

  /** The same start-up on iOS. */
  method StartIos(assemblies: seq<Assembly>, preferredLanguages: seq<string>, known: KnownCultures, strings: Catalog)
    returns (platform: Ios.Culture, service: TranslationService)
    ensures fresh(platform) && fresh(service)
    ensures BoundTo(assemblies, service.resourceManager.assembly, service.resourceManager.baseName)
    ensures service.currentCultureInfo == platform.cultureInfo == Ios.ResolvedCulture(preferredLanguages, known)
    ensures service.resourceManager.strings == strings
    ensures service.currentCultureInfo in known
    ensures platform.Valid() && platform.known == known && platform.assemblies == assemblies
    ensures platform.cultureInfoChanged == [] && service.cultureInfoChanged == []
  {
    platform := new Ios.Culture(assemblies, preferredLanguages, known);
    service := new TranslationService(platform.View(), strings);
  }
}
