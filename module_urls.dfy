/** `getModuleBaseUrl`: the base URL of a module's bundle, obtained from the
    bundle's URL (taken here as an input) by dropping a trailing script file
    name and then one trailing slash. */
module ModuleUrls {
  import opened Text

  /** Start of the final segment of `url`: just after its last '/', or 0. */
  function SegmentStart(url: string): (i: nat)
    ensures i <= |url|
    ensures i > 0 ==> url[i - 1] == '/'
    ensures forall k :: i <= k < |url| ==> url[k] != '/'
  {
    if url == [] then 0
    else if url[|url| - 1] == '/' then |url|
    else SegmentStart(url[..|url| - 1])
  }

  /** Whether a slash-free segment is matched by `[^/]+\.js$` under the `i`
      flag: at least one character followed by ".js" in any letter case. */
  predicate IsScriptName(seg: string) {
    |seg| >= 4 && seg[|seg| - 3] == '.'
    && LowerChar(seg[|seg| - 2]) == 'j' && LowerChar(seg[|seg| - 1]) == 's'
  }

  predicate EndsWithSlash(s: string) {
    |s| > 0 && s[|s| - 1] == '/'
  }

  /** The regular-expression replace: the leftmost match of `[^/]+\.js$`
      starts at the beginning of the final segment, so the whole final
      segment goes when it is a script name. */
  function StripScriptName(url: string): (r: string)
    ensures r <= url
  {
    var i := SegmentStart(url);
    if IsScriptName(url[i..]) then url[..i] else url
  }

  function ModuleBaseUrl(url: string): (r: string)
    ensures r <= url
    // a final script-name segment goes together with the slash before it
    ensures IsScriptName(url[SegmentStart(url)..]) ==>
      r == (if SegmentStart(url) > 0 then url[..SegmentStart(url) - 1] else "")
    // otherwise only one trailing slash, if any, is removed
    ensures !IsScriptName(url[SegmentStart(url)..]) ==>
      r == (if EndsWithSlash(url) then url[..|url| - 1] else url)
    // a URL with neither comes back unchanged
    ensures !IsScriptName(url[SegmentStart(url)..]) && !EndsWithSlash(url) ==> r == url
  {
    var s := StripScriptName(url);
    if EndsWithSlash(s) then s[..|s| - 1] else s
  }

  /** The usual case: a bundle file inside a versioned directory yields that
      directory, without its trailing slash. */
  lemma BundleUrlGivesDirectory(dir: string, file: string)
    requires '/' !in file && IsScriptName(file)
    ensures ModuleBaseUrl(dir + "/" + file) == dir
  {
    var url := dir + "/" + file;
    var i := SegmentStart(url);
    assert url[|dir|] == '/';
    assert forall k :: |dir| + 1 <= k < |url| ==> url[k] == file[k - |dir| - 1];
    assert i == |dir| + 1;
    assert url[i..] == file;
    assert url[..i - 1] == dir;
  }

  /** A directory URL with a trailing slash is normalised by removing it. */
  lemma DirectoryUrlLosesSlash(dir: string)
    ensures ModuleBaseUrl(dir + "/") == dir
  {
    var url := dir + "/";
    assert SegmentStart(url) == |url|;
    assert url[..|url| - 1] == dir;
  }
}
