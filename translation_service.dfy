/**
 * The translation service: it holds the current culture and the resource
 * manager of the bound bundle, looks keys up under the current culture, and
 * passes the platform's culture changes on to its own subscribers.
 */
module Translation {
  import opened Localization

  /**
   * `char.IsWhiteSpace`: the Unicode space, line and paragraph separators,
   * the controls U+0009 to U+000D, and U+0085.
   */
  predicate IsWhiteSpace(c: char) {
    || '\U{0009}' <= c <= '\U{000D}'
    || c == '\U{0020}' || c == '\U{0085}' || c == '\U{00A0}' || c == '\U{1680}'
    || '\U{2000}' <= c <= '\U{200A}'
    || c == '\U{2028}' || c == '\U{2029}' || c == '\U{202F}' || c == '\U{205F}' || c == '\U{3000}'
  }

  /** `string.IsNullOrWhiteSpace`; `None` stands for a null string. */
  predicate IsNullOrWhiteSpace(value: Option<string>) {
    value.None? || forall i :: 0 <= i < |value.value| ==> IsWhiteSpace(value.value[i])
  }

  /**
   * Below U+0100 the blank characters are exactly the ASCII controls tab, line
   * feed, vertical tab, form feed and carriage return, the space, the next-line
   * control U+0085 and the no-break space U+00A0.
   */
  lemma WhiteSpaceLatin1()
    ensures forall c: char :: c <= '\U{00FF}' ==>
      (IsWhiteSpace(c) <==> c in {'\t', '\n', '\U{000B}', '\U{000C}', '\r', ' ', '\U{0085}', '\U{00A0}'})
  {
  }

  /** A string is blank exactly when both of its parts are blank. */
  lemma {:induction false} NullOrWhiteSpaceConcat(a: string, b: string)
    ensures IsNullOrWhiteSpace(Some(a + b)) <==> IsNullOrWhiteSpace(Some(a)) && IsNullOrWhiteSpace(Some(b))
  {
    assert forall i :: 0 <= i < |a| ==> (a + b)[i] == a[i];
    assert forall i :: 0 <= i < |b| ==> (a + b)[|a| + i] == b[i];
  }

  /** The strings of the bound resource bundle, by key and culture. */
  type Catalog = map<(string, CultureName), string>

  /**
   * A `ResourceManager` over the bundle named by a base name in an assembly.
   * `strings` holds what `GetString` finds for a key under a culture,
   * after the manager's own culture fallback.
   */
  datatype ResourceManager = ResourceManager(baseName: Option<string>, assembly: Option<Assembly>, strings: Catalog) {
    /** `GetString(key, culture)`; `None` stands for null, no such entry. */
    function GetString(key: string, culture: CultureName): (r: Option<string>)
      ensures r.Some? <==> (key, culture) in strings
      ensures r.Some? ==> r.value == strings[(key, culture)]
    {
      if (key, culture) in strings then Some(strings[(key, culture)]) else None
    }
  }

  /** What a subscriber saw in one call of its handler. */
  datatype Delivery = Delivery(culture: CultureName, translation: string)

  /** The translation service. */
  class TranslationService {
    const resourceManager: ResourceManager
    var currentCultureInfo: CultureName
    /** The invocation list of the service's own `CultureInfoChanged`. */
    var cultureInfoChanged: seq<Subscriber>

    /**
     * Builds the resource manager from the platform's bound bundle and starts
     * from the platform's culture.
     */
    constructor (platformCulture: ICultureView, strings: Catalog)
      ensures resourceManager.baseName == platformCulture.baseResourceName
      ensures resourceManager.assembly == platformCulture.resourceAssembly
      ensures resourceManager.strings == strings
      ensures currentCultureInfo == platformCulture.cultureInfo
      ensures cultureInfoChanged == []
    {
      resourceManager := ResourceManager(platformCulture.baseResourceName, platformCulture.resourceAssembly, strings);
      currentCultureInfo := platformCulture.cultureInfo;
      cultureInfoChanged := [];
    }

    /**
     * The translation of `key` under the current culture: "" for a null or
     * blank key; otherwise the catalog entry, or the key itself when there is none.
     */
    function Translate(key: Option<string>): (r: string)
      reads this
      ensures IsNullOrWhiteSpace(key) ==> r == ""
      ensures !IsNullOrWhiteSpace(key) && resourceManager.GetString(key.value, currentCultureInfo).Some? ==>
        r == resourceManager.strings[(key.value, currentCultureInfo)]
      ensures !IsNullOrWhiteSpace(key) && resourceManager.GetString(key.value, currentCultureInfo).None? ==>
        r == key.value && !IsNullOrWhiteSpace(Some(r))
      ensures r == "" ==> IsNullOrWhiteSpace(key) || resourceManager.GetString(key.value, currentCultureInfo) == Some("")
    {
      if IsNullOrWhiteSpace(key) then ""
      else
        var found := resourceManager.GetString(key.value, currentCultureInfo);
        if found.Some? then found.value else key.value
    }

    /** `CultureInfoChanged += handler`. */
    method Subscribe(handler: Subscriber)
      modifies this`cultureInfoChanged
      ensures cultureInfoChanged == old(cultureInfoChanged) + [handler]
    {
      cultureInfoChanged := cultureInfoChanged + [handler];
    }

    /** `CultureInfoChanged -= handler`. */
    method Unsubscribe(handler: Subscriber)
      modifies this`cultureInfoChanged
      ensures cultureInfoChanged == RemoveLast(old(cultureInfoChanged), handler)
    {
      cultureInfoChanged := RemoveLast(cultureInfoChanged, handler);
    }

    /**
     * The handler of the platform's `CultureInfoChanged`: the event's culture
     * becomes the current one, and only then are the service's subscribers
     * called, so a handler that translates sees the new culture.
     */
    method PlatformCultureDidChange(e: CultureInfoChangedEventArgs)
      modifies this`currentCultureInfo, set s | s in cultureInfoChanged
      ensures currentCultureInfo == e.newCultureInfo
      ensures cultureInfoChanged == old(cultureInfoChanged)
      ensures forall s :: s in cultureInfoChanged ==>
        s.log == old(s.log) + Repeat(Delivery(e.newCultureInfo, Translate(s.probeKey)), multiset(cultureInfoChanged)[s])
    {
      currentCultureInfo := e.newCultureInfo;
      OnCultureInfoChanged();
    }

    /**
     * Raises the service's `CultureInfoChanged` with the current culture: every
     * subscriber is called in subscription order, once per subscription.
     */
    method OnCultureInfoChanged()
      modifies set s | s in cultureInfoChanged
      ensures forall s :: s in cultureInfoChanged ==>
        s.log == old(s.log) + Repeat(Delivery(currentCultureInfo, Translate(s.probeKey)), multiset(cultureInfoChanged)[s])
    {
      var e := CultureInfoChangedEventArgs(currentCultureInfo);
      var handlers := cultureInfoChanged;
      var i := 0;
      while i < |handlers|
        invariant 0 <= i <= |handlers|
        invariant forall s :: s in handlers ==>
          s.log == old(s.log) + Repeat(Delivery(currentCultureInfo, Translate(s.probeKey)), multiset(handlers[..i])[s])
      {
        var h := handlers[i];
        h.OnCultureInfoChanged(this, e);
        assert handlers[..i + 1] == handlers[..i] + [h];
        assert forall s :: s in handlers && s != h ==> multiset(handlers[..i + 1])[s] == multiset(handlers[..i])[s];
        assert multiset(handlers[..i + 1])[h] == multiset(handlers[..i])[h] + 1;
        i := i + 1;
      }
      assert handlers[..i] == handlers;
    }
  }

  /**
   * A subscriber of the service's `CultureInfoChanged` whose handler
   * translates its key through the sender and records what it saw.
   */
  class Subscriber {
    const probeKey: Option<string>
    var log: seq<Delivery>

    constructor (probeKey: Option<string>)
      ensures this.probeKey == probeKey && log == []
    {
      this.probeKey := probeKey;
      log := [];
    }

    method OnCultureInfoChanged(sender: TranslationService, e: CultureInfoChangedEventArgs)
      modifies this
      ensures log == old(log) + [Delivery(e.newCultureInfo, sender.Translate(probeKey))]
    {
      log := log + [Delivery(e.newCultureInfo, sender.Translate(probeKey))];
    }
  }

  /** Null, empty and blank keys translate to "". */
  lemma BlankKeys(service: TranslationService)
    ensures service.Translate(None) == ""
    ensures service.Translate(Some("")) == ""
    ensures service.Translate(Some(" ")) == ""
    ensures service.Translate(Some("\t\r\n")) == ""
  {
    assert IsNullOrWhiteSpace(Some(" "));
    assert IsNullOrWhiteSpace(Some("\t\r\n"));
  }

  /**
   * A key with an entry under the current culture translates to it; the same
   * key under a culture without an entry comes back as itself.
   */
  lemma GreetingScenario(service: TranslationService)
    requires service.resourceManager.strings == map[("greeting", "en") := "Hello"]
    ensures service.currentCultureInfo == "en" ==> service.Translate(Some("greeting")) == "Hello"
    ensures service.currentCultureInfo != "en" ==> service.Translate(Some("greeting")) == "greeting"
  {
    assert "greeting"[0] == 'g' && !IsWhiteSpace('g');
    assert !IsNullOrWhiteSpace(Some("greeting"));
  }

  /**
   * Two services that agree on the catalog and the current culture translate
   * every key alike: the translation depends on nothing else.
   */
  lemma TranslateDependsOnCultureAndCatalog(a: TranslationService, b: TranslationService, key: Option<string>)
    requires a.resourceManager.strings == b.resourceManager.strings
    requires a.currentCultureInfo == b.currentCultureInfo
    ensures a.Translate(key) == b.Translate(key)
  {
  }
}
