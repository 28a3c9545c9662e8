/**
 * set_content_type_from_file (webserver.c): the response content type for
 * a file, chosen by a case-insensitive extension match.
 */
module ContentType {
  import opened CString
  import opened FileExt

  /** The content types the server can set for a file from the filesystem. */
  datatype Mime = ApplicationPdf | TextHtml | ImageJpeg | ImageXIcon | TextPlain {
    /** The header value passed to httpd_resp_set_type. */
    function Text(): string {
      match this
      case ApplicationPdf => "application/pdf"
      case TextHtml => "text/html"
      case ImageJpeg => "image/jpeg"
      case ImageXIcon => "image/x-icon"
      case TextPlain => "text/plain"
    }
  }

  /**
   * The content type of a file: the first extension of the chain that the name
   * ends with (ignoring case), otherwise plain text. Total: every name gets a type.
   */
  function ContentTypeFromFile(filename: string): (mime: Mime)
    ensures mime == TextPlain <==>
              !EndsWithCI(filename, ".pdf") && !EndsWithCI(filename, ".html") &&
              !EndsWithCI(filename, ".jpeg") && !EndsWithCI(filename, ".ico")
  {
    if EndsWithCI(filename, ".pdf") then ApplicationPdf
    else if EndsWithCI(filename, ".html") then TextHtml
    else if EndsWithCI(filename, ".jpeg") then ImageJpeg
    else if EndsWithCI(filename, ".ico") then ImageXIcon
    else TextPlain
  }

  /** The extension chain as a table, in the order the code tests it. */
  const ExtensionTable: seq<(string, Mime)> :=
    [(".pdf", ApplicationPdf), (".html", TextHtml), (".jpeg", ImageJpeg), (".ico", ImageXIcon)]

  /** Reference reading of an ordered table: the type of the first matching row, else plain text. */
  function FirstMatch(table: seq<(string, Mime)>, filename: string): Mime {
    if |table| == 0 then TextPlain
    else if EndsWithCI(filename, table[0].0) then table[0].1
    else FirstMatch(table[1..], filename)
  }

  /** The if/else chain is the first-match reading of the table. */
  lemma ContentTypeIsFirstMatch(filename: string)
    ensures ContentTypeFromFile(filename) == FirstMatch(ExtensionTable, filename)
  {
    var t0 := ExtensionTable;
    var t1 := [(".html", TextHtml), (".jpeg", ImageJpeg), (".ico", ImageXIcon)];
    var t2 := [(".jpeg", ImageJpeg), (".ico", ImageXIcon)];
    var t3 := [(".ico", ImageXIcon)];
    assert t0[1..] == t1 && t1[1..] == t2 && t2[1..] == t3 && t3[1..] == [];
    assert FirstMatch(t3, filename) == if EndsWithCI(filename, ".ico") then ImageXIcon else TextPlain;
    assert FirstMatch(t2, filename) == if EndsWithCI(filename, ".jpeg") then ImageJpeg else FirstMatch(t3, filename);
    assert FirstMatch(t1, filename) == if EndsWithCI(filename, ".html") then TextHtml else FirstMatch(t2, filename);
  }

  /** A name that ends with ext (ignoring case) ends with ext's last character (ignoring case). */
  lemma EndsWithLastChar(name: string, ext: string)
    requires |ext| > 0 && EndsWithCI(name, ext)
    ensures ToLower(name[|name| - 1]) == ToLower(ext[|ext| - 1])
  {
    var i := |ext| - 1;
    assert ToLower(name[|name| - |ext| + i]) == ToLower(ext[i]);
  }

  /**
   * No name ends with two of the known extensions (their last letters differ),
   * so the order of the chain never decides the outcome.
   */
  lemma ExtensionsExclusive(name: string)
    ensures EndsWithCI(name, ".pdf") ==>
              !EndsWithCI(name, ".html") && !EndsWithCI(name, ".jpeg") && !EndsWithCI(name, ".ico")
    ensures EndsWithCI(name, ".html") ==> !EndsWithCI(name, ".jpeg") && !EndsWithCI(name, ".ico")
    ensures EndsWithCI(name, ".jpeg") ==> !EndsWithCI(name, ".ico")
  {
    if EndsWithCI(name, ".pdf") { EndsWithLastChar(name, ".pdf"); }
    if EndsWithCI(name, ".html") { EndsWithLastChar(name, ".html"); }
    if EndsWithCI(name, ".jpeg") { EndsWithLastChar(name, ".jpeg"); }
    if EndsWithCI(name, ".ico") { EndsWithLastChar(name, ".ico"); }
  }

  /** Each known type is chosen exactly when the name ends with its extension. */
  lemma ContentTypeIff(filename: string)
    ensures ContentTypeFromFile(filename) == ApplicationPdf <==> EndsWithCI(filename, ".pdf")
    ensures ContentTypeFromFile(filename) == TextHtml <==> EndsWithCI(filename, ".html")
    ensures ContentTypeFromFile(filename) == ImageJpeg <==> EndsWithCI(filename, ".jpeg")
    ensures ContentTypeFromFile(filename) == ImageXIcon <==> EndsWithCI(filename, ".ico")
  {
    ExtensionsExclusive(filename);
  }

  /** Case never matters for whether a name ends with an extension. */
  lemma EndsWithCIIgnoresCase(f: string, g: string, ext: string)
    requires CaseEq(f, g)
    ensures EndsWithCI(f, ext) == EndsWithCI(g, ext)
  {
    if |ext| <= |f| {
      var tf, tg := f[|f| - |ext|..], g[|g| - |ext|..];
      forall i | 0 <= i < |ext|
        ensures ToLower(tf[i]) == ToLower(tg[i])
      {
        assert tf[i] == f[|f| - |ext| + i];
        assert tg[i] == g[|g| - |ext| + i];
      }
      IsFileExtIgnoresCase(f, g, ext, ext);
    }
  }

  /** Changing the case of letters in the name never changes its content type. */
  lemma ContentTypeIgnoresCase(f: string, g: string)
    requires CaseEq(f, g)
    ensures ContentTypeFromFile(f) == ContentTypeFromFile(g)
  {
    EndsWithCIIgnoresCase(f, g, ".pdf");
    EndsWithCIIgnoresCase(f, g, ".html");
    EndsWithCIIgnoresCase(f, g, ".jpeg");
    EndsWithCIIgnoresCase(f, g, ".ico");
  }

  /**
   * The chain as the macro evaluates it in the download handler: the file
   * name points into the path buffer just after the base path, so each test
   * reads the last |ext| characters of base + name.
   */
  function ContentTypeInBuffer(full: string): Mime
    requires |full| >= 5
  {
    if IsFileExt(full, ".pdf") then ApplicationPdf
    else if IsFileExt(full, ".html") then TextHtml
    else if IsFileExt(full, ".jpeg") then ImageJpeg
    else if IsFileExt(full, ".ico") then ImageXIcon
    else TextPlain
  }

  /** The macro read inside the path buffer agrees with the name alone, for one extension of the chain. */
  lemma MacroAgrees(base: string, name: string, ext: string)
    requires |base| >= 4 && |name| > 0 && name[0] == '/'
    requires ext == ".pdf" || ext == ".html" || ext == ".jpeg" || ext == ".ico"
    ensures IsFileExt(base + name, ext) == EndsWithCI(name, ext)
  {
    assert forall i :: 0 <= i < |ext| ==> ext[i] != '/' by {
      forall i | 0 <= i < |ext|
        ensures ext[i] != '/'
      {
        assert ext[i] in {'.', 'p', 'd', 'f', 'h', 't', 'm', 'l', 'j', 'e', 'g', 'i', 'c', 'o'};
      }
    }
    MacroInPathBuffer(base, name, ext);
  }

  /**
   * For a name starting with '/' after a base path of four or more characters,
   * the macro's reads stay inside the buffer and choose the same type as the
   * name alone, even for names shorter than an extension.
   */
  lemma ContentTypeInPathBuffer(base: string, name: string)
    requires |base| >= 4 && |name| > 0 && name[0] == '/'
    ensures ContentTypeInBuffer(base + name) == ContentTypeFromFile(name)
  {
    MacroAgrees(base, name, ".pdf");
    MacroAgrees(base, name, ".html");
    MacroAgrees(base, name, ".jpeg");
    MacroAgrees(base, name, ".ico");
  }
}
