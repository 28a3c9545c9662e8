/**
 * get_path_from_uri (webserver.c): the full file path for a request URI,
 * written into a caller's fixed-size buffer, with the query string and the
 * fragment cut off.
 */
module PathResolver {
  import opened Types
  import opened CString

  /**
   * The length of the logical path: the URI up to its first '?' or '#',
   * whichever comes first, or the whole URI when it has neither.
   */
  function PathLen(uri: string): (n: nat)
    ensures n <= |uri|
    ensures forall j :: 0 <= j < n ==> uri[j] != '?' && uri[j] != '#'
    ensures n < |uri| ==> uri[n] == '?' || uri[n] == '#'
  {
    var n0 := |uri|;
    var n1 := match StrChr(uri, '?') case Some(q) => Min(n0, q) case None => n0;
    match StrChr(uri, '#') case Some(h) => Min(n1, h) case None => n1
  }

  /** The logical path of a URI: what is left after cutting at the first '?' or '#'. */
  function LogicalPath(uri: string): string {
    uri[..PathLen(uri)]
  }

  /** Whether base + logical path + NUL fits a buffer of destSize characters. */
  predicate Fits(basePath: string, uri: string, destSize: nat) {
    |basePath| + PathLen(uri) + 1 <= destSize
  }

  /**
   * The logical path the returned pointer designates, or None for the NULL
   * that get_path_from_uri returns when the full path would not fit.
   */
  function ResolvedName(basePath: string, uri: string, destSize: nat): (r: Option<string>)
    ensures r.Some? ==> |basePath| + |r.value| < destSize
    ensures r.Some? ==> |r.value| <= |uri| && uri[..|r.value|] == r.value
    ensures r.Some? ==> '?' !in r.value && '#' !in r.value
    ensures r.None? ==> |basePath| + |uri| + 1 > destSize
  {
    if Fits(basePath, uri, destSize) then Some(LogicalPath(uri)) else None
  }

  /** The logical path is the longest prefix of the URI free of '?' and '#'. */
  lemma {:induction false} LogicalPathIsLongest(uri: string, k: nat)
    requires k <= |uri| && forall j :: 0 <= j < k ==> uri[j] != '?' && uri[j] != '#'
    ensures k <= PathLen(uri)
  {
  }

  /** Appending a query string or a fragment to a URI does not change its logical path. */
  lemma {:induction false} LogicalPathIgnoresSuffix(uri: string, suffix: string)
    requires |suffix| > 0 && (suffix[0] == '?' || suffix[0] == '#')
    ensures LogicalPath(uri + suffix) == LogicalPath(uri)
  {
    var u := uri + suffix;
    var n, m := PathLen(uri), PathLen(u);
    LogicalPathIsLongest(u, n);
    assert u[n] == '?' || u[n] == '#';
    assert m == n;
    assert u[..m] == uri[..n];
  }

  /**
   * Only the logical path counts against the buffer: a URI that resolves keeps
   * resolving, to the same name, whatever query string or fragment is appended.
   */
  lemma QueryDoesNotCountTowardsLimit(basePath: string, uri: string, suffix: string, destSize: nat)
    requires |suffix| > 0 && (suffix[0] == '?' || suffix[0] == '#')
    ensures ResolvedName(basePath, uri + suffix, destSize) == ResolvedName(basePath, uri, destSize)
  {
    LogicalPathIgnoresSuffix(uri, suffix);
  }

  /** Resolving the logical path again gives it back: cutting is idempotent. */
  lemma {:induction false} LogicalPathIdempotent(uri: string)
    ensures LogicalPath(LogicalPath(uri)) == LogicalPath(uri)
  {
    var p := LogicalPath(uri);
    LogicalPathIsLongest(p, |p|);
    assert p[..|p|] == p;
  }

  /** A URI that starts with '/' keeps that '/' as the first character of a non-empty logical path. */
  lemma LogicalPathKeepsLeadingSlash(uri: string)
    requires |uri| > 0 && uri[0] == '/'
    ensures |LogicalPath(uri)| > 0 && LogicalPath(uri)[0] == '/'
  {
    LogicalPathIsLongest(uri, 1);
  }

  /**
   * strcpy(dest, src): src and its NUL land at the start of dest, nothing else
   * changes.
   */
  method StrCpy(dest: array<char>, src: string)
    requires |src| < dest.Length
    modifies dest
    ensures dest[..|src| + 1] == src + [NUL]
    ensures forall j :: |src| < j < dest.Length ==> dest[j] == old(dest[j])
  {
    var i := 0;
    while i < |src|
      invariant 0 <= i <= |src|
      invariant dest[..i] == src[..i]
      invariant forall j :: i <= j < dest.Length ==> dest[j] == old(dest[j])
    {
      dest[i] := src[i];
      i := i + 1;
    }
    dest[i] := NUL;
    assert dest[..i] == src;
    assert dest[..i + 1] == dest[..i] + [dest[i]];
  }

  /**
   * strlcpy(dest + off, src, size): at most size - 1 characters of src, then a
   * NUL, when size is not zero; nothing outside dest[off..off + size] changes.
   * Returns strlen(src).
   */
  method StrLCpy(dest: array<char>, off: nat, src: string, size: nat) returns (srcLen: nat)
    requires off + size <= dest.Length
    modifies dest
    ensures srcLen == |src|
    ensures size > 0 ==> var n := Min(|src|, size - 1);
              dest[off..off + n + 1] == src[..n] + [NUL] &&
              forall j :: off + n < j < dest.Length ==> dest[j] == old(dest[j])
    ensures forall j :: 0 <= j < off ==> dest[j] == old(dest[j])
    ensures size == 0 ==> dest[..] == old(dest[..])
  {
    srcLen := |src|;
    if size == 0 {
      return;
    }
    var n := Min(|src|, size - 1);
    var i := 0;
    while i < n
      invariant 0 <= i <= n
      invariant forall j :: 0 <= j < off ==> dest[j] == old(dest[j])
      invariant dest[off..off + i] == src[..i]
      invariant forall j :: off + i <= j < dest.Length ==> dest[j] == old(dest[j])
    {
      dest[off + i] := src[i];
      i := i + 1;
    }
    dest[off + n] := NUL;
    assert dest[off..off + n + 1] == dest[off..off + n] + [dest[off + n]];
  }

  /**
   * get_path_from_uri: on success dest holds base path, logical path and NUL,
   * and the result is the offset of the logical path (dest + base_pathlen);
   * when that would not fit in destSize characters the result is None and
   * dest is untouched. Nothing at or beyond destSize is ever written.
   */
  method GetPathFromUri(dest: array<char>, basePath: string, uri: string, destSize: nat)
    returns (filename: Option<nat>)
    requires destSize <= dest.Length
    modifies dest
    ensures filename.None? <==> ResolvedName(basePath, uri, destSize).None?
    ensures filename.None? ==> dest[..] == old(dest[..])
    ensures filename.Some? ==>
              var name := ResolvedName(basePath, uri, destSize).value;
              var end := |basePath| + |name| + 1;
              filename.value == |basePath| &&
              dest[..end] == basePath + name + [NUL] &&
              dest[end..] == old(dest[end..])
    ensures dest[destSize..] == old(dest[destSize..])
  {
    var basePathLen := |basePath|;
    var pathLen := |uri|;
    var quest := StrChr(uri, '?');
    if quest.Some? {
      pathLen := Min(pathLen, quest.value);
    }
    var hash := StrChr(uri, '#');
    if hash.Some? {
      pathLen := Min(pathLen, hash.value);
    }
    assert pathLen == PathLen(uri);

    if basePathLen + pathLen + 1 > destSize {
      return None;
    }

    ghost var name := uri[..pathLen];
    ghost var end := basePathLen + pathLen + 1;
    assert ResolvedName(basePath, uri, destSize) == Some(name);
    StrCpy(dest, basePath);
    ghost var afterBase := dest[..];
    assert afterBase[..basePathLen] == basePath;
    var _ := StrLCpy(dest, basePathLen, uri, pathLen + 1);
    assert dest[..basePathLen] == basePath;
    assert dest[basePathLen..end] == name + [NUL];
    assert dest[..end] == basePath + name + [NUL] by {
      assert dest[..end] == dest[..basePathLen] + dest[basePathLen..end];
    }
    assert forall j :: end <= j < dest.Length ==> dest[j] == old(dest[j]);
    return Some(basePathLen);
  }
}
