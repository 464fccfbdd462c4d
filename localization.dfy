/**
 * Shared vocabulary of the localisation core: culture names and the runtime's
 * culture table, the resource-bundle metadata scanned at start-up, the event
 * payload, the tier ladder both platform resolvers run, and the
 * language-code split of a culture identifier.
 */
module Localization {

  datatype Option<+T> = None | Some(value: T)

  /** A culture, identified by the name it was constructed from ("en", "de-CH", ...). */
  type CultureName = string

  /**
   * The culture names the .NET runtime accepts in `new CultureInfo(name)`.
   * The runtime always knows English, so every table of known cultures holds "en".
   */
  type KnownCultures = s: set<CultureName> | "en" in s witness {"en"}

  /** The assembly-level `AppResourcesBaseNameAttribute`: it only carries a base name. */
  datatype AppResourcesBaseNameAttribute = AppResourcesBaseNameAttribute(baseName: string)

  /** A loaded assembly, with the resources attribute it carries, if any. */
  datatype Assembly = Assembly(name: string, resourcesAttribute: Option<AppResourcesBaseNameAttribute>)

  /** The payload of a culture change event. */
  datatype CultureInfoChangedEventArgs = CultureInfoChangedEventArgs(newCultureInfo: CultureName)

  /** The three properties of the `ICulture` interface, as read by the translation service. */
  datatype ICultureView = ICultureView(
    resourceAssembly: Option<Assembly>,
    baseResourceName: Option<string>,
    cultureInfo: CultureName)

  predicate Attributed(a: Assembly) {
    a.resourcesAttribute.Some?
  }

  /**
   * The index of the first assembly that carries the resources attribute,
   * or |assemblies| when none does.
   */
  function FirstAttributed(assemblies: seq<Assembly>): (k: nat)
    ensures k <= |assemblies|
    ensures forall j :: 0 <= j < k ==> !Attributed(assemblies[j])
    ensures k < |assemblies| ==> Attributed(assemblies[k])
  {
    if |assemblies| == 0 then 0
    else if Attributed(assemblies[0]) then 0
    else 1 + FirstAttributed(assemblies[1..])
  }

  /** Once an attributed assembly has been seen, the assemblies after it play no part. */
  lemma {:induction false} LaterAssembliesIgnored(first: seq<Assembly>, rest: seq<Assembly>)
    requires exists i :: 0 <= i < |first| && Attributed(first[i])
    ensures FirstAttributed(first + rest) == FirstAttributed(first)
  {
    if Attributed(first[0]) {
    } else {
      var i :| 0 <= i < |first| && Attributed(first[i]);
      assert i > 0;
      assert Attributed(first[1..][i - 1]);
      assert (first + rest)[1..] == first[1..] + rest;
      LaterAssembliesIgnored(first[1..], rest);
    }
  }

  /**
   * `resourceAssembly` and `baseResourceName` are what the start-up scan binds:
   * the first attributed assembly and its base name, or both unset when no
   * assembly carries the attribute.
   */
  ghost predicate BoundTo(assemblies: seq<Assembly>, resourceAssembly: Option<Assembly>, baseResourceName: Option<string>) {
    var k := FirstAttributed(assemblies);
    if k < |assemblies| then
      && resourceAssembly == Some(assemblies[k])
      && baseResourceName == Some(assemblies[k].resourcesAttribute.value.baseName)
    else
      resourceAssembly.None? && baseResourceName.None?
  }

  /**
   * The start-up scan of the platform cultures: walk the loaded assemblies in
   * order and bind the first one that carries the resources attribute, with
   * that attribute's base name; stop there. When none carries it, both stay unset.
   */
  method ScanAssemblies(assemblies: seq<Assembly>)
    returns (resourceAssembly: Option<Assembly>, baseResourceName: Option<string>)
    ensures resourceAssembly.Some? <==> baseResourceName.Some?
    ensures resourceAssembly.None? <==> forall j :: 0 <= j < |assemblies| ==> !Attributed(assemblies[j])
    ensures BoundTo(assemblies, resourceAssembly, baseResourceName)
  {
    resourceAssembly, baseResourceName := None, None;
    var i := 0;
    while i < |assemblies|
      invariant 0 <= i <= |assemblies|
      invariant forall j :: 0 <= j < i ==> !Attributed(assemblies[j])
      invariant resourceAssembly.None? && baseResourceName.None?
    {
      var attribute := assemblies[i].resourcesAttribute;
      if attribute.Some? {
        resourceAssembly := Some(assemblies[i]);
        baseResourceName := Some(attribute.value.baseName);
        assert FirstAttributed(assemblies) == i;
        return;
      }
      i := i + 1;
    }
  }

  /**
   * The language code of a culture identifier: the part before the first '-'
   * ("pt" for "pt-BR", "gsw" for "gsw-CH", the whole identifier when it has no '-').
   */
  function LanguageCode(platformString: string): (code: string)
    ensures code <= platformString
    ensures '-' !in code
    ensures |code| == |platformString| || platformString[|code|] == '-'
  {
    if |platformString| == 0 || platformString[0] == '-' then ""
    else [platformString[0]] + LanguageCode(platformString[1..])
  }

  /** The language code of an identifier that has a region part is the part before the separator. */
  lemma {:induction false} LanguageCodeOfRegioned(language: string, region: string)
    requires '-' !in language
    ensures LanguageCode(language + "-" + region) == language
  {
    var s := language + "-" + region;
    var code := LanguageCode(s);
    assert s[|language|] == '-';
    assert forall i :: 0 <= i < |language| ==> s[i] == language[i] != '-';
    assert code == s[..|code|];
    assert s[..|language|] == language;
  }

  /** An identifier without a '-' is its own language code. */
  lemma LanguageCodeOfBare(language: string)
    requires '-' !in language
    ensures LanguageCode(language) == language
  {
  }

  /**
   * The tier ladder of `UpdateCultureInfo`: the platform's candidate if the
   * runtime knows it, else the fallback if the runtime knows it, else "en".
   */
  function TryCultures(netLanguage: string, fallback: string, known: KnownCultures): (ci: CultureName)
    ensures ci in known
    ensures ci == netLanguage <==> netLanguage in known
    ensures netLanguage !in known ==> (ci == fallback <==> fallback in known)
    ensures netLanguage !in known && fallback !in known ==> ci == "en"
  {
    if netLanguage in known then netLanguage
    else if fallback in known then fallback
    else "en"
  }

  /** `n` copies of `x`: what a handler subscribed `n` times receives from one event. */
  function Repeat<T>(x: T, n: nat): (r: seq<T>)
    ensures |r| == n
    ensures forall i :: 0 <= i < n ==> r[i] == x
  {
    if n == 0 then [] else Repeat(x, n - 1) + [x]
  }

  /** The position of the last occurrence of `h` in `handlers`, or -1 when it does not occur. */
  function LastIndexOf<T(==)>(handlers: seq<T>, h: T): (k: int)
    ensures -1 <= k < |handlers|
    ensures k == -1 <==> h !in handlers
    ensures k >= 0 ==> handlers[k] == h && h !in handlers[k + 1..]
  {
    if |handlers| == 0 then -1
    else if handlers[|handlers| - 1] == h then |handlers| - 1
    else
      var k := LastIndexOf(handlers[..|handlers| - 1], h);
      assert handlers == handlers[..|handlers| - 1] + [handlers[|handlers| - 1]];
      assert k >= 0 ==> handlers[k + 1..] == handlers[..|handlers| - 1][k + 1..] + [handlers[|handlers| - 1]];
      k
  }

  /**
   * Removing a handler from an event's invocation list takes out its LAST
   * occurrence; a handler that is not subscribed leaves the list as it is.
   */
  function RemoveLast<T(==)>(handlers: seq<T>, h: T): (r: seq<T>)
    ensures h !in handlers ==> r == handlers
    ensures h in handlers ==>
      var k := LastIndexOf(handlers, h);
      r == handlers[..k] + handlers[k + 1..]
  {
    var k := LastIndexOf(handlers, h);
    if k < 0 then handlers else handlers[..k] + handlers[k + 1..]
  }

  /** Unsubscribing takes out exactly one occurrence of a subscribed handler, and nothing else. */
  lemma UnsubscribeRemovesOne<T>(handlers: seq<T>, h: T)
    requires h in handlers
    ensures |RemoveLast(handlers, h)| == |handlers| - 1
    ensures multiset(RemoveLast(handlers, h)) == multiset(handlers) - multiset{h}
  {
    var k := LastIndexOf(handlers, h);
    var before, after := handlers[..k], handlers[k + 1..];
    assert handlers == before + [h] + after;
  }
}
