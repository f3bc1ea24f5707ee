/** Identity derivation: the filename a provider activity's media gets,
    used both as the de-duplication key against the album and as the
    uploaded item's name. Shared by both revisions of the script. */
module Identity {
  import opened Types
  import opened PathRules

  /** `get_file_ext`: the extension of the last component of the URL path,
      or, when it has none, the default for the activity type; `None` for
      any other type (the script falls off the end of the function). A
      result is always a proper extension, and one the path has ends it. */
  function GetFileExt(path: string, activityType: string): (r: Option<string>)
    ensures r.Some? ==> IsExtension(r.value)
    ensures r.None? <==> !IsMediaType(activityType) && !HasExtensionSplit(Basename(path))
    ensures HasExtensionSplit(Basename(path)) ==>
      r.Some? && |r.value| <= |path| && path[|path| - |r.value|..] == r.value
    ensures !HasExtensionSplit(Basename(path)) && activityType == PhotoActivity ==> r == Some(".jpg")
    ensures !HasExtensionSplit(Basename(path)) && activityType == VideoActivity ==> r == Some(".mp4")
  {
    var name := Basename(path);
    var sp := SplitExt(name);
    if sp.1 != [] then
      SuffixOfSuffix(path, name, sp.0, sp.1);
      Some(sp.1)
    else if activityType == PhotoActivity then
      DefaultExtensions();
      Some(".jpg")
    else if activityType == VideoActivity then
      DefaultExtensions();
      Some(".mp4")
    else None
  }

  lemma DefaultExtensions()
    ensures IsExtension(".jpg") && IsExtension(".mp4")
  {
    assert ".jpg"[0] == '.' && ".mp4"[0] == '.';
  }

  lemma SuffixOfSuffix(path: string, name: string, root: string, ext: string)
    requires |name| <= |path| && path[|path| - |name|..] == name
    requires root + ext == name
    ensures |ext| <= |path| && path[|path| - |ext|..] == ext
  {
    assert name[|root|..] == ext;
    assert path[|path| - |ext|..] == path[|path| - |name|..][|root|..];
  }

  /** `get_media_url_from_activity` (inlined in the later revision): the
      media URL of photo and video activities, nothing for any other type. */
  function MediaUrlOf(a: Activity): (r: Option<Url>)
    ensures r.Some? ==> IsMediaType(a.activityType)
    ensures a.activityType == PhotoActivity ==> r == a.activiable.mainUrl
    ensures a.activityType == VideoActivity ==> r == a.activiable.videoFileUrl
    ensures !IsMediaType(a.activityType) ==> r == None
  {
    if a.activityType == PhotoActivity then a.activiable.mainUrl
    else if a.activityType == VideoActivity then a.activiable.videoFileUrl
    else None
  }

  /** `get_filename_from_activity`: activity_time + "_" + id + extension.
      `ParseIdentityRoundTrip` states what the name determines. */
  function FilenameOf(a: Activity, url: Url): string {
    a.activityTime + "_" + a.id + match GetFileExt(url.path, a.activityType) { case Some(ext) => ext case None => "" }
  }

  lemma LastDotStartsExtension(stem: string, ext: string)
    requires IsExtension(ext)
    ensures LastIndexOf(stem + ext, '.') == |stem|
  {
    var s := stem + ext;
    assert s[|stem|] == '.';
    forall j | |stem| < j < |s| ensures s[j] != '.' {
      assert s[j] == ext[j - |stem|];
    }
  }

  /** The parts an identity is made of. */
  datatype IdentityParts = IdentityParts(activityTime: string, id: string, ext: string)

  /** Reads an identity back: the timestamp up to the first '_', the id up
      to the last '.', and the extension from there on. */
  function ParseIdentity(name: string): (r: Option<IdentityParts>)
    ensures r.Some? ==> r.value.activityTime + "_" + r.value.id + r.value.ext == name
    ensures r.Some? ==> '_' !in r.value.activityTime
    ensures r.Some? ==> |r.value.ext| > 0 && r.value.ext[0] == '.' && '.' !in r.value.ext[1..]
  {
    var u := FirstIndexOf(name, '_');
    var d := LastIndexOf(name, '.');
    if 0 <= u < d then
      CutAt(name, u, d);
      Some(IdentityParts(name[..u], name[u + 1..d], name[d..]))
    else None
  }

  lemma CutAt(name: string, u: int, d: int)
    requires 0 <= u < d < |name|
    requires u == FirstIndexOf(name, '_') && d == LastIndexOf(name, '.')
    ensures name[..u] + "_" + name[u + 1..d] + name[d..] == name
    ensures '_' !in name[..u]
    ensures |name[d..]| > 0 && name[d..][0] == '.' && '.' !in name[d..][1..]
  {
    assert forall j :: 0 <= j < u ==> name[..u][j] != '_';
    assert forall j :: 0 <= j < |name[d..][1..]| ==> name[d..][1..][j] == name[d + 1 + j];
    assert name[..u] + "_" + name[u + 1..d] + name[d..] == name;
  }

  /** Parsing inverts the concatenation of well-formed parts. */
  lemma ParseParts(t: string, id: string, ext: string)
    requires '_' !in t && IsExtension(ext)
    ensures ParseIdentity(t + "_" + id + ext) == Some(IdentityParts(t, id, ext))
  {
    var name := t + "_" + id + ext;
    FirstIndexAt(name, '_', |t|);
    LastDotStartsExtension(t + "_" + id, ext);
    assert name[..|t|] == t;
    assert name[|t| + 1..|t| + 1 + |id|] == id;
    assert name[|t| + 1 + |id|..] == ext;
  }

  lemma FirstIndexAt(s: string, c: char, k: nat)
    requires k < |s| && s[k] == c && forall j :: 0 <= j < k ==> s[j] != c
    ensures FirstIndexOf(s, c) == k
  {
  }

  /** Round trip: the identity of a photo or video activity whose
      timestamp has no '_' (an ISO 8601 timestamp has none) gives back the
      timestamp, id and extension it was built from. */
  lemma ParseIdentityRoundTrip(a: Activity, url: Url)
    requires IsMediaType(a.activityType)
    requires '_' !in a.activityTime
    ensures ParseIdentity(FilenameOf(a, url)) ==
      Some(IdentityParts(a.activityTime, a.id, GetFileExt(url.path, a.activityType).value))
  {
    var ext := GetFileExt(url.path, a.activityType).value;
    ParseParts(a.activityTime, a.id, ext);
  }

  /** Two photo or video activities with '_'-free timestamps get the same
      identity only when they agree on timestamp, id and extension. */
  lemma IdentityInjective(a: Activity, u: Url, b: Activity, v: Url)
    requires IsMediaType(a.activityType) && IsMediaType(b.activityType)
    requires '_' !in a.activityTime && '_' !in b.activityTime
    requires FilenameOf(a, u) == FilenameOf(b, v)
    ensures a.activityTime == b.activityTime && a.id == b.id
    ensures GetFileExt(u.path, a.activityType) == GetFileExt(v.path, b.activityType)
  {
    ParseIdentityRoundTrip(a, u);
    ParseIdentityRoundTrip(b, v);
  }

  /** Without that premise two activities with different ids can collide:
      ("t_x", "1") and ("t", "x_1") both give "t_x_1" + extension. */
  lemma IdentityCollidesWhenTimestampHasUnderscore(url: Url)
    ensures var a := Activity("1", PhotoActivity, "t_x", Activiable(Some(url), None, None));
      var b := Activity("x_1", PhotoActivity, "t", Activiable(Some(url), None, None));
      a.id != b.id && FilenameOf(a, url) == FilenameOf(b, url)
  {
    var a := Activity("1", PhotoActivity, "t_x", Activiable(Some(url), None, None));
    var b := Activity("x_1", PhotoActivity, "t", Activiable(Some(url), None, None));
    assert a.activityTime + "_" + a.id == b.activityTime + "_" + b.id;
  }
}
