/**
 * The two platforms keep their own tables; these lemmas state where the
 * tables agree and where they part.
 */
module PlatformTables {
  import Droid
  import Ios
  import Localization

  /** Both override tables collapse the Malay tags of Malaysia and Singapore and map Swiss German alike. */
  lemma OverrideTablesAgree(tag: string)
    requires tag in {"ms-MY", "ms-SG", "gsw-CH"}
    ensures Droid.AndroidToDotnetLanguage(tag) == Ios.IosToDotnetLanguage(tag) != tag
  {
  }

  /**
   * The tags only the Android table rewrites: iOS hands them on untouched,
   * and for every other tag both tables agree.
   */
  lemma OverrideTablesDiffer(tag: string)
    ensures Droid.AndroidToDotnetLanguage(tag) != Ios.IosToDotnetLanguage(tag) <==>
      tag in {"ms-BN", "in-ID", "iw", "iw-IL"}
    ensures tag in {"ms-BN", "in-ID", "iw", "iw-IL"} ==> Ios.IosToDotnetLanguage(tag) == tag
  {
  }

  /** The fallback tables part on Portuguese only: iOS falls back to "pt-PT", Android to "pt". */
  lemma FallbackTablesDiffer(platformString: string)
    ensures Droid.ToDotnetFallbackLanguage(platformString) != Ios.ToDotnetFallbackLanguage(platformString) <==>
      Localization.LanguageCode(platformString) == "pt"
  {
  }
}
