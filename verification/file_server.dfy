/**
 * The server itself (webserver.c): the per-server data, the GET handler that
 * ties path resolution, routing and streaming together, and
 * start_file_server with its static server_data.
 */
module FileServer {
  import opened Types
  import opened CString
  import opened Http
  import opened PathResolver
  import opened ContentType
  import opened GetRouting
  import opened ChunkStream

  /** ESP-IDF's default ESP_VFS_PATH_MAX (esp_vfs.h). */
  const ESP_VFS_PATH_MAX: nat := 15

  /** ESP-IDF's default CONFIG_SPIFFS_OBJ_NAME_LEN (sdkconfig). */
  const CONFIG_SPIFFS_OBJ_NAME_LEN: nat := 32

  /** FILE_PATH_MAX: the size of the GET handler's path buffer. */
  const FILE_PATH_MAX: nat := ESP_VFS_PATH_MAX + CONFIG_SPIFFS_OBJ_NAME_LEN

  /** The only base path the server accepts. */
  const SPIFFS_BASE: string := "/spiffs"

  /** struct file_server_data: the base path and the scratch buffer shared by all requests. */
  class ServerData {
    var basePath: string
    const scratch: array<byte>

    /** calloc: an empty base path and a zeroed scratch buffer. */
    constructor Calloc()
      ensures basePath == [] && fresh(scratch) && scratch.Length == SCRATCH_BUFSIZE
    {
      basePath := [];
      scratch := new byte[SCRATCH_BUFSIZE](_ => 0);
    }
  }

  /**
   * The C string at buf + off: the characters up to the first NUL, which
   * must lie inside buf.
   */
  method ReadCString(buf: array<char>, off: nat) returns (s: string)
    requires off <= buf.Length
    requires exists i :: off <= i < buf.Length && buf[i] == NUL
    ensures off + |s| < buf.Length && buf[off + |s|] == NUL
    ensures IsCString(s) && s == buf[off..off + |s|]
  {
    var i := off;
    while buf[i] != NUL
      invariant off <= i < buf.Length
      invariant forall j :: off <= j < i ==> buf[j] != NUL
      invariant exists k :: i <= k < buf.Length && buf[k] == NUL
      decreases buf.Length - i
    {
      i := i + 1;
    }
    s := buf[off..i];
  }

  /** Reading a C string stops at the first NUL: s + NUL at buf[off..] is the only C string there. */
  lemma CStringAt(buf: seq<char>, off: nat, s: string, t: string)
    requires off + |s| < |buf| && buf[off..off + |s| + 1] == s + [NUL] && IsCString(s)
    requires off + |t| < |buf| && buf[off + |t|] == NUL && IsCString(t) && t == buf[off..off + |t|]
    ensures t == s
  {
    var w := buf[off..];
    assert w[..|s| + 1] == s + [NUL];
    forall j | 0 <= j < |s| ensures w[j] != NUL {
      assert w[..|s| + 1][j] == w[j];
    }
    assert w[..|s| + 1][|s|] == w[|s|];
    assert w[|t|] == NUL && t == w[..|t|];
    forall j | 0 <= j < |t| ensures w[j] != NUL {
      assert t[j] == w[j];
    }
    assert |t| == |s|;
    assert t == w[..|s|] == s;
  }

  /**
   * What download_get_handler does for a GET of uri, when fs maps the full
   * paths of the files present to their contents, openOk says whether fopen
   * succeeds and sendOk(i) whether the i-th chunk send of the file succeeds.
   */
  function GetSpec(basePath: string, uri: string, fs: map<string, seq<byte>>, openOk: bool,
                   sendOk: nat -> bool): HandlerResult
    requires |uri| > 0 && uri[0] == '/'
  {
    LogicalPathKeepsLeadingSlash(uri);
    var name := ResolvedName(basePath, uri, FILE_PATH_MAX);
    var full := if name.Some? then basePath + name.value else [];
    var route := RouteGet(name, full in fs);
    if route != FromFilesystem then RouteResponse(route)
    else if !openOk then HandlerResult(EspFail, [SendErr(500, "Failed to read existing file")])
    else
      var streamed := StreamSpec(fs[full], sendOk);
      HandlerResult(streamed.err, [SetType(ContentTypeFromFile(name.value).Text())] + streamed.log)
  }

  /**
   * The first step of download_get_handler: get_path_from_uri into a path
   * buffer of FILE_PATH_MAX characters; the name is the C string at the
   * returned offset and the full path the C string at the buffer's start.
   */
  method ResolveIntoBuffer(basePath: string, uri: string) returns (filename: Option<string>, fullpath: string)
    requires IsCString(basePath) && IsCString(uri)
    ensures filename == ResolvedName(basePath, uri, FILE_PATH_MAX)
    ensures filename.Some? ==> fullpath == basePath + filename.value
  {
    var filepath := new char[FILE_PATH_MAX];
    var off := GetPathFromUri(filepath, basePath, uri, filepath.Length);
    if off.None? {
      return None, [];
    }
    ghost var name := ResolvedName(basePath, uri, FILE_PATH_MAX).value;
    assert filepath[..][..|basePath| + |name| + 1] == basePath + name + [NUL];
    assert filepath[..][off.value..off.value + |name| + 1] == name + [NUL];
    assert filepath[|basePath| + |name|] == NUL;
    var name' := ReadCString(filepath, off.value);
    CStringAt(filepath[..], off.value, name, name');
    fullpath := ReadCString(filepath, 0);
    CStringAt(filepath[..], 0, basePath + name, fullpath);
    filename := Some(name');
  }

  /**
   * download_get_handler: resolves the URI into the path buffer, picks the
   * route and answers it, streaming the file through the server's scratch
   * buffer. Its actions and result are those of GetSpec.
   */
  method DownloadGet(server: ServerData, uri: string, fs: map<string, seq<byte>>, openOk: bool,
                     sendOk: nat -> bool) returns (res: HandlerResult)
    requires |uri| > 0 && uri[0] == '/' && IsCString(uri) && server.basePath == SPIFFS_BASE
    requires server.scratch.Length == SCRATCH_BUFSIZE
    modifies server.scratch
    ensures res == GetSpec(server.basePath, uri, fs, openOk, sendOk)
  {
    LogicalPathKeepsLeadingSlash(uri);
    assert IsCString(server.basePath);
    var filename, fullpath := ResolveIntoBuffer(server.basePath, uri);
    if filename.None? {
      return HandlerResult(EspFail, [SendErr(500, "Filename too long")]);
    }
    var route := RouteGet(filename, fullpath in fs);
    if route != FromFilesystem {
      return RouteResponse(route);
    }
    if !openOk {
      return HandlerResult(EspFail, [SendErr(500, "Failed to read existing file")]);
    }
    // IS_FILE_EXT reads the tail of the path buffer, behind the name
    var mime := ContentTypeInBuffer(fullpath);
    ContentTypeInPathBuffer(server.basePath, filename.value);
    var streamed := StreamFile(fs[fullpath], server.scratch, sendOk);
    return HandlerResult(streamed.err, [SetType(mime.Text())] + streamed.log);
  }

  /** A query string or fragment on the URI never changes what a GET does. */
  lemma GetIgnoresQuery(basePath: string, uri: string, suffix: string, fs: map<string, seq<byte>>,
                        openOk: bool, sendOk: nat -> bool)
    requires |uri| > 0 && uri[0] == '/'
    requires |suffix| > 0 && (suffix[0] == '?' || suffix[0] == '#')
    ensures GetSpec(basePath, uri + suffix, fs, openOk, sendOk) == GetSpec(basePath, uri, fs, openOk, sendOk)
  {
    QueryDoesNotCountTowardsLimit(basePath, uri, suffix, FILE_PATH_MAX);
  }

  /**
   * A GET of a file present on the filesystem whose path fits and is not
   * answered from the firmware, when the open and every send succeed, sends
   * the content type and then exactly the file's bytes, and succeeds.
   */
  lemma {:induction false} GetStreamsWholeFile(basePath: string, uri: string, fs: map<string, seq<byte>>,
                                               sendOk: nat -> bool)
    requires |uri| > 0 && uri[0] == '/'
    requires ResolvedName(basePath, uri, FILE_PATH_MAX).Some?
    requires var name := LogicalPath(uri); basePath + name in fs && !AlwaysEmbedded(name)
    requires forall k :: 0 <= k < |Chunks(fs[basePath + LogicalPath(uri)])| ==> sendOk(k)
    ensures var res := GetSpec(basePath, uri, fs, true, sendOk);
            res.err == EspOk &&
            res.log[0] == SetType(ContentTypeFromFile(LogicalPath(uri)).Text()) &&
            SentBytes(res.log) == fs[basePath + LogicalPath(uri)]
  {
    LogicalPathKeepsLeadingSlash(uri);
    var full := basePath + LogicalPath(uri);
    StreamSuccess(fs[full], sendOk);
    var head := [SetType(ContentTypeFromFile(LogicalPath(uri)).Text())];
    SentBytesAppend(head, StreamSpec(fs[full], sendOk).log);
    SentBytesNone(head);
  }

  /** A path whose full form does not fit the path buffer gets a 500 and nothing else. */
  lemma GetTooLong(basePath: string, uri: string, fs: map<string, seq<byte>>, openOk: bool,
                   sendOk: nat -> bool)
    requires |uri| > 0 && uri[0] == '/'
    requires |basePath| + |LogicalPath(uri)| + 1 > FILE_PATH_MAX
    ensures GetSpec(basePath, uri, fs, openOk, sendOk) == HandlerResult(EspFail, [SendErr(500, "Filename too long")])
  {
  }

  /**
   * A file present on the filesystem that fopen cannot open gets a 500 and
   * nothing else.
   */
  lemma GetOpenFails(basePath: string, uri: string, fs: map<string, seq<byte>>, sendOk: nat -> bool)
    requires |uri| > 0 && uri[0] == '/'
    requires ResolvedName(basePath, uri, FILE_PATH_MAX).Some?
    requires var name := LogicalPath(uri); basePath + name in fs && !AlwaysEmbedded(name)
    ensures GetSpec(basePath, uri, fs, false, sendOk) ==
              HandlerResult(EspFail, [SendErr(500, "Failed to read existing file")])
  {
    LogicalPathKeepsLeadingSlash(uri);
  }

  /**
   * A GET whose k-th chunk send is the first to fail: after the content type,
   * only a prefix of the file is sent, the file is closed once, and the
   * response ends with an empty chunk and a 500.
   */
  lemma GetStreamFails(basePath: string, uri: string, fs: map<string, seq<byte>>, sendOk: nat -> bool, k: nat)
    requires |uri| > 0 && uri[0] == '/'
    requires ResolvedName(basePath, uri, FILE_PATH_MAX).Some?
    requires var name := LogicalPath(uri); basePath + name in fs && !AlwaysEmbedded(name)
    requires k < |Chunks(fs[basePath + LogicalPath(uri)])| && !sendOk(k)
    requires forall j :: 0 <= j < k ==> sendOk(j)
    ensures var res := GetSpec(basePath, uri, fs, true, sendOk);
            var n := |res.log|;
            res.err == EspFail && n == k + 5 &&
            res.log[0] == SetType(ContentTypeFromFile(LogicalPath(uri)).Text()) &&
            res.log[n - 3..] == AbortTail &&
            SentBytes(res.log) <= fs[basePath + LogicalPath(uri)] &&
            Count(res.log, CloseFile) == 1
  {
    LogicalPathKeepsLeadingSlash(uri);
    var full := basePath + LogicalPath(uri);
    var streamed := StreamSpec(fs[full], sendOk);
    var t := ContentTypeFromFile(LogicalPath(uri)).Text();
    assert GetSpec(basePath, uri, fs, true, sendOk) == HandlerResult(streamed.err, [SetType(t)] + streamed.log);
    StreamFailure(fs[full], sendOk, k);
    TypedAbort(t, streamed.log, fs[full]);
  }

  /** Setting the content type in front of an aborted stream keeps what the stream promises. */
  lemma TypedAbort(t: string, log: seq<Event>, data: seq<byte>)
    requires |log| >= 3 && log[|log| - 3..] == AbortTail
    requires SentBytes(log) <= data && Count(log, CloseFile) == 1
    ensures var l := [SetType(t)] + log;
            l[|l| - 3..] == AbortTail && SentBytes(l) <= data && Count(l, CloseFile) == 1
  {
    var head := [SetType(t)];
    var l := head + log;
    assert l[|l| - 3..] == AbortTail by {
      assert l[|l| - 3..] == log[|log| - 3..];
    }
    assert SentBytes(l) == SentBytes(log) by {
      SentBytesAppend(head, log);
      SentBytesNone(head);
    }
    assert Count(l, CloseFile) == 1 by {
      CountAppend(head, log, CloseFile);
    }
  }

  /** The request methods handlers are registered for. */
  datatype HttpMethod = HttpGet | HttpPost

  /** The handler functions of this file. */
  datatype HandlerFn = UpdateGetHandler | DownloadGetHandler | ApiPostHandlerFn

  /** httpd_uri_t: a URI pattern, a method and a handler. */
  datatype UriHandler = UriHandler(uri: string, httpMethod: HttpMethod, handler: HandlerFn)

  /** The registrations a successful start makes, in order. */
  const Routes: seq<UriHandler> := [
    UriHandler("/update", HttpGet, UpdateGetHandler),
    UriHandler("/*", HttpGet, DownloadGetHandler),
    UriHandler("/api/*", HttpPost, ApiPostHandlerFn)
  ]

  /** strlcpy into base_path[ESP_VFS_PATH_MAX + 1]: at most ESP_VFS_PATH_MAX characters are kept. */
  function Truncate(s: string, max: nat): (t: string)
    ensures |t| <= max && t <= s
    ensures |s| <= max ==> t == s
  {
    if |s| <= max then s else s[..max]
  }

  /** The state start_file_server depends on: whether server_data is allocated, and the server's registrations. */
  datatype StartState = StartState(hasData: bool, running: bool, handlers: seq<UriHandler>)

  const Boot: StartState := StartState(false, false, [])

  /**
   * One call of start_file_server with base path basePath (None for NULL),
   * where allocOk says whether calloc succeeds and httpdOk whether
   * httpd_start does.
   */
  function StartSpec(s: StartState, basePath: Option<string>, allocOk: bool, httpdOk: bool)
    : (r: (StartState, EspErr))
    ensures r.1 == ErrInvalidArg <==> basePath != Some(SPIFFS_BASE)
    ensures r.1 == EspOk ==> r.0.running && r.0.handlers == Routes
    ensures r.1 != EspOk ==> r.0.running == s.running && r.0.handlers == s.handlers
    ensures basePath == Some(SPIFFS_BASE) ==>
              (r.1 == ErrInvalidState <==> s.hasData) &&
              (r.1 == ErrNoMem <==> !s.hasData && !allocOk) &&
              (r.1 == EspFail <==> !s.hasData && allocOk && !httpdOk) &&
              (r.1 == EspOk <==> !s.hasData && allocOk && httpdOk)
    ensures r.0.hasData <==> s.hasData || (basePath == Some(SPIFFS_BASE) && allocOk)
  {
    if basePath.None? || basePath.value != SPIFFS_BASE then (s, ErrInvalidArg)
    else if s.hasData then (s, ErrInvalidState)
    else if !allocOk then (s, ErrNoMem)
    else if !httpdOk then (s.(hasData := true), EspFail)
    else (StartState(true, true, Routes), EspOk)
  }

  /** One call's inputs. */
  datatype StartCall = StartCall(basePath: Option<string>, allocOk: bool, httpdOk: bool)

  /** The results of a sequence of calls, and the state after them. */
  function RunStarts(s: StartState, calls: seq<StartCall>): (StartState, seq<EspErr>)
    decreases |calls|
  {
    if |calls| == 0 then (s, [])
    else
      var (s1, e) := StartSpec(s, calls[0].basePath, calls[0].allocOk, calls[0].httpdOk);
      var (s2, es) := RunStarts(s1, calls[1..]);
      (s2, [e] + es)
  }

  /**
   * Once server_data is allocated it is never released, so every later call
   * is refused: with ESP_ERR_INVALID_ARG for a bad base path (that check comes
   * first) and ESP_ERR_INVALID_STATE otherwise, even when httpd_start failed.
   */
  lemma {:induction false} AllocatedIsFinal(s: StartState, calls: seq<StartCall>)
    requires s.hasData
    ensures var (s', es) := RunStarts(s, calls);
            s' == s && |es| == |calls| &&
            forall i :: 0 <= i < |calls| ==>
              es[i] == (if calls[i].basePath == Some(SPIFFS_BASE) then ErrInvalidState else ErrInvalidArg)
    decreases |calls|
  {
    if |calls| > 0 {
      AllocatedIsFinal(s, calls[1..]);
    }
  }

  /**
   * An httpd_start failure leaves server_data allocated, so the server can
   * never be started afterwards: the failed call returns ESP_FAIL and every
   * later call is refused.
   */
  lemma FailedStartIsFinal(calls: seq<StartCall>)
    ensures var (s', es) := RunStarts(Boot, [StartCall(Some(SPIFFS_BASE), true, false)] + calls);
            |es| == |calls| + 1 && es[0] == EspFail && !s'.running && s'.handlers == [] &&
            forall i :: 1 <= i < |es| ==> es[i] in {ErrInvalidState, ErrInvalidArg}
  {
    var all := [StartCall(Some(SPIFFS_BASE), true, false)] + calls;
    assert all[1..] == calls;
    var (s1, e) := StartSpec(Boot, Some(SPIFFS_BASE), true, false);
    AllocatedIsFinal(s1, calls);
  }

  /**
   * From boot, any sequence of calls starts the server at most once, and the
   * handlers registered are either none or exactly the three routes.
   */
  lemma {:induction false} StartsAtMostOnce(s: StartState, calls: seq<StartCall>)
    requires s == Boot || (s.hasData && !s.running && s.handlers == [])
    ensures var (s', es) := RunStarts(s, calls);
            |es| == |calls| &&
            (forall i, j :: 0 <= i < j < |es| && es[i] == EspOk ==> es[j] != EspOk) &&
            (s'.handlers == [] || s'.handlers == Routes)
    decreases |calls|
  {
    if |calls| > 0 {
      var (s1, e) := StartSpec(s, calls[0].basePath, calls[0].allocOk, calls[0].httpdOk);
      var (s2, es) := RunStarts(s1, calls[1..]);
      if s1.hasData {
        AllocatedIsFinal(s1, calls[1..]);
      } else {
        StartsAtMostOnce(s1, calls[1..]);
      }
    }
  }

  /** The static server_data of start_file_server and the running server's registrations. */
  class Starter {
    var serverData: ServerData?
    var running: bool
    var handlers: seq<UriHandler>

    constructor()
      ensures State() == Boot
    {
      serverData := null;
      running := false;
      handlers := [];
    }

    function State(): StartState
      reads this
    {
      StartState(serverData != null, running, handlers)
    }

    /**
     * start_file_server: its result and new state are those of StartSpec; on
     * allocation the server data holds the base path and a fresh scratch buffer.
     */
    method StartFileServer(basePath: Option<string>, allocOk: bool, httpdOk: bool) returns (err: EspErr)
      modifies this
      ensures (State(), err) == StartSpec(old(State()), basePath, allocOk, httpdOk)
      ensures serverData != old(serverData) ==>
                serverData != null && fresh(serverData) && serverData.basePath == SPIFFS_BASE &&
                serverData.scratch.Length == SCRATCH_BUFSIZE
    {
      if basePath.None? || basePath.value != SPIFFS_BASE {
        return ErrInvalidArg;
      }
      if serverData != null {
        return ErrInvalidState;
      }
      if !allocOk {
        return ErrNoMem;
      }
      var data := new ServerData.Calloc();
      data.basePath := Truncate(basePath.value, ESP_VFS_PATH_MAX);
      serverData := data;
      if !httpdOk {
        return EspFail;
      }
      running := true;
      handlers := Routes;
      return EspOk;
    }
  }
}
