/** `getLocalePack` and `updateLocale`: finding the supporting bundle for a
    locale by dropping subtags from the end until a bundle name matches.
    The generated bundle table is a map from bundle name to an opaque
    bundle id; loading the bundle itself is not modelled. */
module LocalePacks {
  import opened Wrappers
  import opened Text
  import Intl

  type BundleTable = map<string, nat>

  /** The name formed by the first `n` subtags. */
  function Prefix(tags: seq<string>, n: nat): string
    requires n <= |tags|
  {
    Join(tags[..n], '-')
  }

  /** The bundle of the longest leading run of subtags that names one. */
  function BestBundle(tags: seq<string>, packs: BundleTable): Option<nat>
    decreases |tags|
  {
    if tags == [] then None
    else if Join(tags, '-') in packs then Some(packs[Join(tags, '-')])
    else BestBundle(tags[..|tags| - 1], packs)
  }

  function LookupBundle(locale: string, packs: BundleTable): Result<nat> {
    match BestBundle(Split(locale, '-'), packs)
    case Some(id) => Ok(id)
    case None => Err("No locale bundle available for " + locale)
  }

  /** The loop of `getLocalePack`: pop the last subtag until a name matches. */
  method GetLocalePack(locale: string, packs: BundleTable) returns (r: Result<nat>)
    ensures r == LookupBundle(locale, packs)
  {
    var localeArray := Split(locale, '-');
    var localePack: Option<nat> := None;
    while |localeArray| > 0 && localePack.None?
      invariant localePack.None? ==> BestBundle(localeArray, packs) == BestBundle(Split(locale, '-'), packs)
      invariant localePack.Some? ==> localePack == BestBundle(Split(locale, '-'), packs)
      decreases |localeArray|
    {
      var name := Join(localeArray, '-');
      if name in packs {
        localePack := Some(packs[name]);
      }
      localeArray := localeArray[..|localeArray| - 1];
    }
    if localePack.Some? {
      return Ok(localePack.value);
    }
    return Err("No locale bundle available for " + locale);
  }

  /** `BestBundle` picks the longest prefix that names a bundle, and finds
      nothing only when no prefix does. */
  lemma {:induction false} BestBundleIsLongestPrefix(tags: seq<string>, packs: BundleTable)
    ensures BestBundle(tags, packs).None? <==> forall n :: 1 <= n <= |tags| ==> Prefix(tags, n) !in packs
    ensures BestBundle(tags, packs).Some? ==>
      exists n :: 1 <= n <= |tags| && Prefix(tags, n) in packs
        && BestBundle(tags, packs).value == packs[Prefix(tags, n)]
        && forall m :: n < m <= |tags| ==> Prefix(tags, m) !in packs
    decreases |tags|
  {
    if tags != [] {
      var len := |tags|;
      assert tags[..len] == tags;
      assert Prefix(tags, len) == Join(tags, '-');
      if Join(tags, '-') !in packs {
        var init := tags[..len - 1];
        BestBundleIsLongestPrefix(init, packs);
        forall n | 1 <= n <= len - 1
          ensures Prefix(init, n) == Prefix(tags, n)
        {
          assert init[..n] == tags[..n];
        }
        if BestBundle(tags, packs).Some? {
          var n :| 1 <= n <= |init| && Prefix(init, n) in packs
            && BestBundle(init, packs).value == packs[Prefix(init, n)]
            && forall m :: n < m <= |init| ==> Prefix(init, m) !in packs;
          assert forall m :: n < m <= len ==> Prefix(tags, m) !in packs;
        }
      }
    }
  }

  /** A locale that is itself a bundle name gets that bundle. */
  lemma ExactBundlePreferred(locale: string, packs: BundleTable)
    requires locale in packs
    ensures LookupBundle(locale, packs) == Ok(packs[locale])
  {
    JoinSplit(locale, '-');
  }

  lemma {:induction false} SplitWithoutSeparator(s: string, sep: char)
    requires sep !in s
    ensures Split(s, sep) == [s]
  {
    if s != [] {
      SplitWithoutSeparator(s[1..], sep);
      assert [s[0]] + s[1..] == s;
    }
  }

  lemma {:induction false} SplitAtSeparator(a: string, sep: char, b: string)
    requires sep !in a
    ensures Split(a + [sep] + b, sep) == [a] + Split(b, sep)
  {
    if a == [] {
      assert a + [sep] + b == [sep] + b;
      assert ([sep] + b)[1..] == b;
    } else {
      SplitAtSeparator(a[1..], sep, b);
      assert (a + [sep] + b)[1..] == a[1..] + [sep] + b;
      assert [a[0]] + a[1..] == a;
    }
  }

  /** A language-region locale without its own bundle falls back to the
      bundle of its language. */
  lemma RegionFallsBackToLanguage(language: string, region: string, packs: BundleTable)
    requires '-' !in language && '-' !in region
    requires language + "-" + region !in packs
    requires language in packs
    ensures LookupBundle(language + "-" + region, packs) == Ok(packs[language])
  {
    var locale := language + "-" + region;
    SplitAtSeparator(language, '-', region);
    SplitWithoutSeparator(region, '-');
    var tags := Split(locale, '-');
    assert tags == [language, region];
    assert Join(tags, '-') == locale;
    assert tags[..1] == [language];
    assert BestBundle(tags, packs) == BestBundle([language], packs);
    assert Join([language], '-') == language;
    assert BestBundle([language], packs) == Some(packs[language]);
  }

  /** `updateLocale`: what the returned promise settles to, and the
      UPDATE_LOCALE action dispatched when it resolves. */
  function UpdateLocale(locale: Option<string>, packs: BundleTable): (r: Result<Intl.IntlAction>)
    ensures !Truthy(locale) ==> r == Err("No locale was given")
    ensures Truthy(locale) ==>
      (r.Ok? <==> LookupBundle(locale.value, packs).Ok?)
    ensures Truthy(locale) && r.Ok? ==> r.value == Intl.UpdateLocale(locale)
    ensures Truthy(locale) && r.Err? ==> r == Err("No locale bundle available for " + locale.value)
  {
    if !Truthy(locale) then Err("No locale was given")
    else match LookupBundle(locale.value, packs)
      case Ok(_) => Ok(Intl.UpdateLocale(locale))
      case Err(message) => Err(message)
  }
}
