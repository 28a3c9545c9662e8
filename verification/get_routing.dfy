/**
 * The decision tree of download_get_handler (webserver.c): which of the
 * embedded assets, redirects, errors or the filesystem answers a GET.
 */
module GetRouting {
  import opened Types
  import opened Http

  /** The outcomes the handler chooses between. */
  datatype GetRoute =
    | FilenameTooLong   // 500: the full path does not fit the path buffer
    | IndexPage         // embedded index.html for a path ending in '/'
    | Style             // embedded style.css
    | Robots            // embedded robots.txt
    | RedirectToRoot    // 307 to '/' for a missing /index.html
    | Favicon           // embedded favicon for a missing /favicon.ico
    | Font              // embedded font for a missing /Ubuntu.woff2
    | NotFound          // 404
    | FromFilesystem    // stream the file

  /** Paths answered from the firmware before the filesystem is consulted. */
  predicate AlwaysEmbedded(name: string)
    requires |name| > 0
  {
    name[|name| - 1] == '/' || name == "/style.css" || name == "/robots.txt"
  }

  /** Paths with an embedded answer used only when the filesystem has no such file. */
  predicate HasFallback(name: string) {
    name == "/index.html" || name == "/favicon.ico" || name == "/Ubuntu.woff2"
  }

  /**
   * The route for a resolved logical path (None when the path was too long)
   * and the result of stat on the full path. The path is non-empty: every URI
   * the wildcard GET handler receives starts with '/'.
   */
  function RouteGet(filename: Option<string>, fileExists: bool): (r: GetRoute)
    requires filename.Some? ==> |filename.value| > 0
    ensures r == FilenameTooLong <==> filename.None?
    ensures r == FromFilesystem <==>
              filename.Some? && fileExists && !AlwaysEmbedded(filename.value)
    ensures r == NotFound <==>
              filename.Some? && !fileExists && !AlwaysEmbedded(filename.value) && !HasFallback(filename.value)
    ensures r in {RedirectToRoot, Favicon, Font} <==>
              filename.Some? && !fileExists && !AlwaysEmbedded(filename.value) && HasFallback(filename.value)
    ensures r == IndexPage <==> filename.Some? && filename.value[|filename.value| - 1] == '/'
    ensures r == Style <==> filename == Some("/style.css")
    ensures r == Robots <==> filename == Some("/robots.txt")
    ensures r == RedirectToRoot <==> filename == Some("/index.html") && !fileExists
    ensures r == Favicon <==> filename == Some("/favicon.ico") && !fileExists
    ensures r == Font <==> filename == Some("/Ubuntu.woff2") && !fileExists
  {
    if filename.None? then FilenameTooLong
    else
      var name := filename.value;
      if name[|name| - 1] == '/' then IndexPage
      else if name == "/style.css" then Style
      else if name == "/robots.txt" then Robots
      else if !fileExists then
        (if name == "/index.html" then RedirectToRoot
         else if name == "/favicon.ico" then Favicon
         else if name == "/Ubuntu.woff2" then Font
         else NotFound)
      else FromFilesystem
  }

  /**
   * The precedence between the firmware and the filesystem: directory paths,
   * /style.css and /robots.txt never depend on the filesystem, while a file
   * present on the filesystem always wins over the other fallbacks.
   */
  lemma RoutePrecedence(name: string)
    requires |name| > 0
    ensures AlwaysEmbedded(name) ==> RouteGet(Some(name), true) == RouteGet(Some(name), false)
    ensures HasFallback(name) ==> RouteGet(Some(name), true) == FromFilesystem
    ensures RouteGet(Some(name), true) in {IndexPage, Style, Robots, FromFilesystem}
  {
  }

  /** What the handler sends, and returns, on every route except streaming a file. */
  function RouteResponse(r: GetRoute): (res: HandlerResult)
    requires r != FromFilesystem
    ensures res.err == EspFail <==> r == FilenameTooLong || r == NotFound
    ensures res.err == EspFail ==>
              |res.log| == 1 && res.log[0].SendErr? && res.log[0].code == (if r == NotFound then 404 else 500)
    ensures r in {IndexPage, Style, Robots} ==> |res.log| > 0 && res.log[|res.log| - 1] == SendChunk(LastChunk)
    ensures r == RedirectToRoot <==> SetStatus("307 Temporary Redirect") in res.log
    ensures r == RedirectToRoot ==> SetHeader("Location", "/") in res.log && Send(Bytes([])) in res.log
    ensures forall a :: SendChunk(Asset(a)) in res.log || Send(Asset(a)) in res.log <==>
              (r, a) in {(IndexPage, IndexHtml), (Style, StyleCss), (Robots, RobotsTxt), (Favicon, FaviconIco),
                         (Font, UbuntuWoff2)}
    ensures forall t :: SetType(t) in res.log <==>
              (r, t) in {(Style, "text/css"), (Favicon, "image/x-icon"), (Font, "font/woff2")}
    ensures r in {Style, Favicon, Font} ==> res.log[0].SetType?
  {
    match r
    case FilenameTooLong => HandlerResult(EspFail, [SendErr(500, "Filename too long")])
    case IndexPage => HandlerResult(EspOk, [SendChunk(Asset(IndexHtml)), SendChunk(LastChunk)])
    case Style => HandlerResult(EspOk, [SetType("text/css"), SendChunk(Asset(StyleCss)), SendChunk(LastChunk)])
    case Robots => HandlerResult(EspOk, [SendChunk(Asset(RobotsTxt)), SendChunk(LastChunk)])
    case RedirectToRoot =>
      HandlerResult(EspOk, [SetStatus("307 Temporary Redirect"), SetHeader("Location", "/"), Send(Bytes([]))])
    case Favicon => HandlerResult(EspOk, [SetType("image/x-icon"), Send(Asset(FaviconIco))])
    case Font => HandlerResult(EspOk, [SetType("font/woff2"), Send(Asset(UbuntuWoff2))])
    case NotFound => HandlerResult(EspFail, [SendErr(404, "File does not exist")])
  }
}
