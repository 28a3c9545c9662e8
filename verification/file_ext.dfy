/**
 * The IS_FILE_EXT macro of include/webserver.h: a case-insensitive
 * comparison of the end of a file name against an extension literal.
 */
module FileExt {
  import opened CString

  /** sizeof applied to a string literal: its characters and the terminating NUL. */
  function SizeOf(literal: string): nat {
    |literal| + 1
  }

  /**
   * IS_FILE_EXT(filename, ext): strcasecmp of ext against filename from offset
   * strlen(filename) - sizeof(ext) + 1 on. Because sizeof counts the NUL, that
   * tail is exactly the last |ext| characters. The macro reads inside filename
   * only when filename is at least as long as ext.
   */
  function IsFileExt(filename: string, ext: string): (b: bool)
    requires |ext| <= |filename|
    ensures b <==> forall i :: 0 <= i < |ext| ==>
                      ToLower(filename[|filename| - |ext| + i]) == ToLower(ext[i])
  {
    CaseEq(filename[|filename| - SizeOf(ext) + 1..], ext)
  }

  /** Only the last |ext| characters of the name take part, and case never matters. */
  lemma IsFileExtIgnoresCase(f: string, g: string, ext: string, ext': string)
    requires |ext| <= |f| && |ext| <= |g| && |ext'| == |ext|
    requires CaseEq(f[|f| - |ext|..], g[|g| - |ext|..])
    requires CaseEq(ext, ext')
    ensures IsFileExt(f, ext) == IsFileExt(g, ext')
  {
    forall i | 0 <= i < |ext|
      ensures ToLower(f[|f| - |ext| + i]) == ToLower(ext[i]) <==>
              ToLower(g[|g| - |ext| + i]) == ToLower(ext'[i])
    {
      assert f[|f| - |ext|..][i] == f[|f| - |ext| + i];
      assert g[|g| - |ext|..][i] == g[|g| - |ext| + i];
    }
  }

  /** A name that ends with ext, ignoring case; false for a name shorter than ext. */
  predicate EndsWithCI(name: string, ext: string) {
    |ext| <= |name| && IsFileExt(name, ext)
  }

  /**
   * In the download handler the file name points into the path buffer right
   * after the base path, so the macro reads the last |ext| characters of
   * base + name, even when name alone is shorter than ext. Because the name
   * starts with '/' and the extension holds no '/', that read agrees with
   * EndsWithCI on the name alone.
   */
  lemma {:induction false} MacroInPathBuffer(base: string, name: string, ext: string)
    requires |ext| <= |base| + |name|
    requires |name| > 0 && name[0] == '/'
    requires forall i :: 0 <= i < |ext| ==> ext[i] != '/'
    ensures IsFileExt(base + name, ext) == EndsWithCI(name, ext)
  {
    var full := base + name;
    if |ext| <= |name| {
      forall i | 0 <= i < |ext|
        ensures ToLower(full[|full| - |ext| + i]) == ToLower(ext[i]) <==>
                ToLower(name[|name| - |ext| + i]) == ToLower(ext[i])
      {
        assert full[|full| - |ext| + i] == name[|name| - |ext| + i];
      }
    } else {
      var i := |ext| - |name|;
      assert full[|full| - |ext| + i] == '/';
      assert ToLower(ext[i]) != '/';
    }
  }
}
