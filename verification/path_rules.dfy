/** The string rules of Python's `os.path.basename` and `os.path.splitext`
    on POSIX paths, which the scripts apply to a media URL's path to find
    the file extension. */
module PathRules {

  /** Index of the last occurrence of `c` in `s`, or -1 (`str.rfind`). */
  function LastIndexOf(s: string, c: char): (r: int)
    ensures -1 <= r < |s|
    ensures r >= 0 ==> s[r] == c
    ensures forall j :: r < j < |s| ==> s[j] != c
  {
    LastIndexBelow(s, c, |s|)
  }

  /** The last occurrence of `c` among the first n characters of `s`. */
  function LastIndexBelow(s: string, c: char, n: nat): (r: int)
    requires n <= |s|
    ensures -1 <= r < n
    ensures r >= 0 ==> s[r] == c
    ensures forall j :: r < j < n ==> s[j] != c
    decreases n
  {
    if n == 0 then -1
    else if s[n - 1] == c then n - 1
    else LastIndexBelow(s, c, n - 1)
  }

  /** Index of the first occurrence of `c` in `s`, or -1 (`str.find`). */
  function FirstIndexOf(s: string, c: char): (r: int)
    ensures -1 <= r < |s|
    ensures r >= 0 ==> s[r] == c
    ensures forall j :: 0 <= j < |s| && (r < 0 || j < r) ==> s[j] != c
  {
    FirstIndexFrom(s, c, 0)
  }

  /** The first occurrence of `c` in `s` at index i or later. */
  function FirstIndexFrom(s: string, c: char, i: nat): (r: int)
    requires i <= |s|
    ensures r == -1 || i <= r < |s|
    ensures r >= 0 ==> s[r] == c
    ensures forall j :: i <= j < |s| && (r < 0 || j < r) ==> s[j] != c
    decreases |s| - i
  {
    if i == |s| then -1
    else if s[i] == c then i
    else FirstIndexFrom(s, c, i + 1)
  }

  /** `os.path.basename`: everything after the last '/'. The result is the
      longest suffix of `p` free of '/'. */
  function Basename(p: string): (r: string)
    ensures '/' !in r
    ensures |r| <= |p| && p[|p| - |r|..] == r
    ensures |r| == |p| || p[|p| - |r| - 1] == '/'
  {
    p[LastIndexOf(p, '/') + 1..]
  }

  /** A file extension as `splitext` returns it: a '.' followed by no
      further '.' or '/'. */
  ghost predicate IsExtension(e: string) {
    && |e| > 0
    && e[0] == '.'
    && forall i :: 1 <= i < |e| ==> e[i] != '.' && e[i] != '/'
  }

  /** The last component of `root` holds some character other than '.';
      leading dots of a file name (".bashrc") never start an extension. */
  ghost predicate HasStem(root: string) {
    exists i :: 0 <= i < |root| && root[i] != '.' && root[i] != '/' &&
      forall j :: i < j < |root| ==> root[j] != '/'
  }

  /** `p` can be cut into a stem and an extension. */
  ghost predicate HasExtensionSplit(p: string) {
    exists i :: 0 <= i <= |p| && IsExtension(p[i..]) && HasStem(p[..i])
  }

  /** `os.path.splitext`: the pair (root, ext) with root + ext == p, where
      ext runs from the last '.' of the last component when some character
      of that component before it is not a '.', and is empty otherwise.
      So a found extension is a proper one behind a stem, and none is found
      exactly when `p` cannot be cut into a stem and an extension. */
  function SplitExt(p: string): (r: (string, string))
    ensures r.0 + r.1 == p
    ensures r.1 != [] ==> IsExtension(r.1) && HasStem(r.0)
    ensures r.1 == [] <==> !HasExtensionSplit(p)
  {
    var sep := LastIndexOf(p, '/');
    var dot := LastIndexOf(p, '.');
    if sep < dot && exists i :: sep < i < dot && p[i] != '.' then
      ExtensionAtLastDot(p, sep, dot);
      (p[..dot], p[dot..])
    else
      NoExtensionSplit(p, sep, dot);
      (p, [])
  }

  lemma ExtensionAtLastDot(p: string, sep: int, dot: int)
    requires sep == LastIndexOf(p, '/') && dot == LastIndexOf(p, '.')
    requires sep < dot && exists i :: sep < i < dot && p[i] != '.'
    ensures IsExtension(p[dot..]) && HasStem(p[..dot])
    ensures HasExtensionSplit(p)
  {
    var i :| sep < i < dot && p[i] != '.';
    var root := p[..dot];
    assert root[i] != '.' && root[i] != '/';
    assert forall j :: i < j < |root| ==> root[j] != '/';
    assert HasStem(root);
    assert p[dot..][0] == '.';
    assert IsExtension(p[dot..]);
  }

  lemma NoExtensionSplit(p: string, sep: int, dot: int)
    requires sep == LastIndexOf(p, '/') && dot == LastIndexOf(p, '.')
    requires !(sep < dot && exists i :: sep < i < dot && p[i] != '.')
    ensures !HasExtensionSplit(p)
  {
    forall k | 0 <= k <= |p| && IsExtension(p[k..]) ensures !HasStem(p[..k]) {
      var e := p[k..];
      assert p[k] == e[0] == '.';
      // the extension starts at the last '.' and lies after the last '/'
      forall j | k < j < |p| ensures p[j] != '.' && p[j] != '/' {
        assert p[j] == e[j - k];
      }
      assert dot == k && sep < k;
      // so every non-'.' character before it is followed by the last '/'
      forall i | 0 <= i < k && p[..k][i] != '.' && p[..k][i] != '/'
        ensures exists j :: i < j < k && p[..k][j] == '/'
      {
        assert p[i] != '.' && p[i] != '/';
        assert i < sep;
        assert p[..k][sep] == '/';
      }
    }
  }
}
