# esp32-webserver core, modelled in Dafny

This project models the request-handling core of a small ESP-IDF web server for a thermostat display (`webserver.c` and the `IS_FILE_EXT` macro of `include/webserver.h`), and proves properties of that model:

- **Path resolution** (`get_path_from_uri`). The URI is cut at its first `?` or `#`. The base path, the cut URI and a NUL are then written into a caller's fixed-size `char` buffer, modelled as an `array<char>`. When they would not fit, nothing is written and the result is NULL.
- **Content type** (`set_content_type_from_file`). An ordered, case-insensitive extension chain that falls back to `text/plain`. It is built on an exact model of `IS_FILE_EXT`.
- **GET routing** (`download_get_handler`). A pure decision tree chooses between:
  - a 500 for a path that is too long;
  - the embedded index page, style sheet and robots file;
  - the 307 redirect, the embedded favicon and font, which are used only when the file is missing;
  - a 404;
  - streaming from the filesystem.

  The embedded assets and the responses that do not stream a file are part of this model too.
- **Chunked streaming**. The do-while loop reads the file into the server's 8192-byte scratch buffer, modelled as an `array<byte>`, and sends each non-empty piece. It closes the file and ends the response on the success path and on the send-failure path.
- **API POST** (`api_post_handler`). The receive size is clipped to 100 bytes and receive failures and timeouts are handled. An exact match on the raw URI sets one of the three shared setpoints (`goal`, `over`, `under`), which are fields of a class. Every completed request ends with the 303 redirect.
- **Start guard** (`start_file_server`). It validates the base path, then checks the static `server_data` pointer, which is never reset, then checks for allocation failure.

## How the environment is modelled

- **Responses.** Each handler returns a `HandlerResult`: its `esp_err_t` and an ordered log of `Http.Event`s. The events are the response calls (status, type, header, send, chunk, error), `fclose`, the receive request and `update_display`. The response functions' own return values are ignored by the code, except for the file chunk sends.
- **Files.** The filesystem is a `map` from full path to contents: `stat` succeeds exactly for keys of the map. A boolean says whether `fopen` succeeds. The file position is an index into the contents.
- **Chunk sends.** An oracle `sendOk: nat -> bool` says whether the i-th data chunk send succeeds.
- **Receive.** What `httpd_req_recv` delivers is a `RecvResult` value: bytes, connection closed, timeout or socket error. Its `Ret()` gives the C return value, using `HTTPD_SOCK_ERR_TIMEOUT = -3` and `HTTPD_SOCK_ERR_FAIL = -1` from `esp_http_server.h`.
- **Floats.** The setpoints' float type is a type parameter `F`, and `atof` is a parameter `parse: seq<byte> -> F`.
- **Embedded blobs.** The linker-embedded blobs appear as the names of the `Embedded` datatype. Their bytes are not modelled.
- **Strings.** A `string` is the contents of a C string, the characters before its NUL (`CString.IsCString`). `strcasecmp` folds ASCII case as the C locale does.
- **Constants.** The path buffer is `FILE_PATH_MAX = ESP_VFS_PATH_MAX + CONFIG_SPIFFS_OBJ_NAME_LEN = 15 + 32`, the ESP-IDF defaults. Both values are configuration outside this repository.

Two consequences of the code are worth stating:
- A query string does not count towards the path buffer's limit. Resolution measures only the URI up to its first `?` or `#`, so a long query string never makes resolution fail. See `PathResolver.QueryDoesNotCountTowardsLimit` and the `r.None?` clause of `PathResolver.ResolvedName`.
- The API handler compares the raw URI, query string included. A POST to a setpoint URI carrying a query string therefore matches no setpoint (`ApiPost.QueryDefeatsMatch`).

## Model

| member | source | states |
|---|---|---|
| `CString.StrChr` | webserver.c:76-85 | strchr for a non-NUL character (the server searches for '?' and '#'): the index of the first occurrence of the character, which is absent from everything before it; None exactly when the character does not occur |
| `FileExt.IsFileExt` | include/webserver.h:43-44 | IS_FILE_EXT holds exactly when each of the last `strlen(ext)` characters of the name equals the corresponding character of ext after tolower (the `sizeof(ext) - 1` offset makes the tail exactly `strlen(ext)` long) |
| `FileExt.IsFileExtIgnoresCase` | include/webserver.h:43-44 | only the last `strlen(ext)` characters of the name matter, and changing the ASCII case of letters in that tail or in ext never changes the result |
| `FileExt.MacroInPathBuffer` | include/webserver.h:43-44 | applied to a name that starts with '/' inside the path buffer, the macro reads the tail of base + name, and this agrees with "name ends with ext, ignoring case" even when the name is shorter than ext |
| `ContentType.ContentTypeFromFile` | webserver.c:135-156 | total: plain text exactly when the name ends with none of .pdf, .html, .jpeg, .ico |
| `ContentType.ContentTypeIsFirstMatch` | webserver.c:135-156 | the if/else chain is the first matching row of the ordered table .pdf, .html, .jpeg, .ico, with text/plain as the default |
| `ContentType.ExtensionsExclusive` | webserver.c:135-156 | no name ends with two of the four extensions, so the order of the chain never decides the outcome |
| `ContentType.ContentTypeIff` | webserver.c:135-156 | each of application/pdf, text/html, image/jpeg, image/x-icon is chosen exactly when the name ends with its extension, ignoring case |
| `ContentType.EndsWithCIIgnoresCase` | include/webserver.h:43-44 | whether a name ends with an extension does not depend on the case of the name |
| `ContentType.ContentTypeIgnoresCase` | webserver.c:135-156 | names equal up to ASCII case get the same content type |
| `ContentType.ContentTypeInPathBuffer` | webserver.c:277 | the chain evaluated as the handler evaluates it, with the macro reading the path buffer behind the name, chooses the same type as the name alone |
| `PathResolver.PathLen` | webserver.c:73-85 | the logical path length: at most strlen(uri), no '?' or '#' before it, and it stops exactly at the first '?' or '#' when there is one |
| `PathResolver.ResolvedName` | webserver.c:87-98 | on success the name is a prefix of the URI without '?' or '#', and base + name + NUL fits the buffer; NULL is returned only for a URI that is itself too long for the buffer together with the base |
| `PathResolver.LogicalPathIsLongest` | webserver.c:73-85 | the logical path is the longest prefix of the URI free of '?' and '#' |
| `PathResolver.LogicalPathIgnoresSuffix` | webserver.c:73-85 | appending a query string or fragment to a URI leaves its logical path unchanged |
| `PathResolver.QueryDoesNotCountTowardsLimit` | webserver.c:73-91 | appending a query string or fragment never changes whether the path fits or what name it resolves to |
| `PathResolver.LogicalPathIdempotent` | webserver.c:73-85 | cutting the logical path again changes nothing |
| `PathResolver.LogicalPathKeepsLeadingSlash` | webserver.c:73-85 | a URI starting with '/' has a non-empty logical path starting with '/', so the trailing-slash test reads inside the name |
| `PathResolver.StrCpy` | webserver.c:94 | strcpy: the source and a NUL at the start of dest, the rest of dest unchanged |
| `PathResolver.StrLCpy` | webserver.c:95 | strlcpy: at most size - 1 characters and a NUL at the offset, nothing outside `[off, off + size)` changed, strlen(src) returned |
| `PathResolver.GetPathFromUri` | webserver.c:71-99 | NULL with dest untouched exactly when base + logical path + NUL exceeds destsize; otherwise dest starts with base, logical path, NUL and the result is the offset of the logical path; nothing at or beyond destsize is ever written |
| `GetRouting.RouteGet` | webserver.c:219-265 | each route exactly on its own condition. Too long exactly when resolution failed. The index page exactly for a name ending in '/'. The style sheet exactly for /style.css and the robots file exactly for /robots.txt. The 307 redirect exactly for a missing /index.html, the favicon exactly for a missing /favicon.ico and the font exactly for a missing /Ubuntu.woff2. Streaming exactly when stat succeeds and the path is neither a directory, /style.css nor /robots.txt. 404 exactly when the file is missing and no fallback applies |
| `GetRouting.RoutePrecedence` | webserver.c:229-265 | directory paths, /style.css and /robots.txt do not depend on the filesystem; a present /index.html, /favicon.ico or /Ubuntu.woff2 is streamed from the filesystem; a present file never gets a 404 or a fallback |
| `GetRouting.RouteResponse` | webserver.c:100-198 | the handler fails exactly on a path that is too long or a missing file, and then sends a single error: 404 for a missing file, 500 otherwise. The 307 status is set exactly on the redirect, which also sets `Location: /` and sends an empty body. Each embedded reply sends exactly its own asset: index page, style sheet, robots file, favicon or font. A content type is set exactly for the style sheet (text/css), the favicon (image/x-icon) and the font (font/woff2), and it is set first. The chunked replies end with the empty chunk |
| `ChunkStream.ChunksCoverFile` | webserver.c:282-303 | the pieces the read loop produces are non-empty, at most 8192 bytes each, and concatenate to the whole file |
| `ChunkStream.Fread` | webserver.c:285 | fread into the scratch buffer: the next min(remaining, 8192) bytes of the file |
| `ChunkStream.StreamFile` | webserver.c:279-311 | the do-while read/send loop over the shared scratch buffer does exactly what `StreamSpec` describes |
| `ChunkStream.StreamSuccess` | webserver.c:282-311 | when every send succeeds: the result is ESP_OK, every event before the close is a non-empty chunk of at most 8192 bytes, the chunks carry exactly the file, the file is closed once, and exactly one empty chunk is sent, as the last action |
| `ChunkStream.StreamFailure` | webserver.c:287-299 | at the first failed send: the result is ESP_FAIL, no data chunk follows it, the bytes sent are a prefix of the file, the file is closed once, and the log ends with close, empty chunk, 500 |
| `ChunkStream.StreamFailsIffSendFails` | webserver.c:287-311 | the stream fails exactly when some chunk send fails |
| `ApiPost.RecvSize` | webserver.c:317-318 | the receive size is the declared content length clipped to the 100-byte buffer |
| `ApiPost.PostReceiveFailure` | webserver.c:319-333 | a receive returning 0 or less fails, changes no setpoint, does not refresh the display, and sends 408 exactly on a timeout |
| `ApiPost.PostReceived` | webserver.c:335-369 | after a receive: the result is ESP_OK and the log ends with the 303 redirect to '/'. A matched URI sets only its setpoint, to the parsed body, and calls update_display exactly once. An unmatched URI changes nothing, does not refresh the display, and sets 501 |
| `ApiPost.PostIdempotent` | webserver.c:314-370 | repeating the same POST leaves the same setpoints and gets the same response |
| `ApiPost.QueryDefeatsMatch` | webserver.c:337-354 | the raw URI is compared, so a URI with a query string or fragment matches no setpoint route |
| `ApiPost.ApiPostHandler` | webserver.c:314-370 | the handler's actions, result and new setpoints are exactly those of `PostSpec` on the old setpoints |
| `FileServer.ReadCString` | webserver.c:230-265 | strlen/strcmp reading the name in the path buffer: the characters up to the first NUL |
| `FileServer.CStringAt` | webserver.c:230-265 | after resolution, the C string at the name's offset is the logical path and the one at the buffer's start is base + logical path |
| `FileServer.ResolveIntoBuffer` | webserver.c:215-230 | writing the path into a FILE_PATH_MAX buffer and reading the two C strings back gives exactly the resolved name and base + name; NULL exactly when resolution fails |
| `FileServer.DownloadGet` | webserver.c:212-312 | the handler, running on the server data start_file_server sets up and streaming through the server's scratch buffer, does exactly what `GetSpec` describes. The content type it sets is computed by the macro reading the path buffer, and is that of the name alone |
| `FileServer.GetIgnoresQuery` | webserver.c:219-220 | a query string or fragment on the URI never changes what a GET does |
| `FileServer.GetStreamsWholeFile` | webserver.c:267-311 | a present, openable file that is not answered from the firmware is sent with its content type first and then exactly its bytes, and the result is ESP_OK when every send succeeds |
| `FileServer.GetTooLong` | webserver.c:219-227 | a path whose full form does not fit gets a single 500 "Filename too long" and ESP_FAIL |
| `FileServer.GetOpenFails` | webserver.c:267-274 | a present file that fopen cannot open gets a single 500 "Failed to read existing file" and ESP_FAIL |
| `FileServer.GetStreamFails` | webserver.c:277-299 | when the k-th chunk send is the first to fail: ESP_FAIL, a log of k + 5 events starting with the content type, only a prefix of the file sent, one close, and a log ending with close, empty chunk, 500 |
| `FileServer.Truncate` | webserver.c:400-401 | strlcpy into base_path keeps at most ESP_VFS_PATH_MAX characters, a prefix of the argument, and all of an argument that fits |
| `FileServer.StartSpec` | webserver.c:376-416 | ESP_ERR_INVALID_ARG exactly for a NULL or non-"/spiffs" base path, whatever the state. For "/spiffs": ESP_ERR_INVALID_STATE exactly when server_data is already allocated, ESP_ERR_NO_MEM exactly when calloc fails, ESP_FAIL exactly when httpd_start fails, and ESP_OK otherwise. server_data is allocated afterwards exactly when it was before or calloc succeeded. Only ESP_OK registers the three handlers, and every failure leaves the registrations as they were |
| `FileServer.AllocatedIsFinal` | webserver.c:378-399 | once server_data is allocated, including after an httpd_start failure, every later call returns ESP_ERR_INVALID_STATE, or ESP_ERR_INVALID_ARG for a bad base path, and changes nothing |
| `FileServer.FailedStartIsFinal` | webserver.c:394-416 | from boot, a start whose httpd_start fails returns ESP_FAIL with no handlers registered, and leaves server_data allocated. Every later call is therefore refused with ESP_ERR_INVALID_STATE or ESP_ERR_INVALID_ARG |
| `FileServer.StartsAtMostOnce` | webserver.c:376-443 | from boot, any sequence of calls returns ESP_OK at most once, and the registrations are either none or exactly /update, "/*" (GET) and "/api/*" (POST) |
| `FileServer.Starter.StartFileServer` | webserver.c:376-443 | the state change and result are those of `StartSpec`; a newly allocated server_data holds "/spiffs" and a fresh 8192-byte scratch buffer |

## Left out

- FileExt.IsFileExt: it requires the name to be at least as long as the extension, because the macro otherwise reads before the start of the name. The content-type chain uses `EndsWithCI`, which is false for shorter names. `FileExt.MacroInPathBuffer` shows that this is what the macro computes inside the handler's path buffer.
- `update_get_handler` (the /update status line) is not modelled: it only formats floats with `sprintf("%0.3f %0.1f %0.1f %0.1f")`. The `temp` global is read only by that handler, so it is absent too.
- `atof` and the float type: the parsed value is opaque (`parse`, type `F`). A body of non-numeric text is not distinguished.
- The 100-byte `content` buffer is passed to `atof` without a terminating NUL, so `atof` may read past the received bytes. The model parses exactly the received bytes. This is a memory hazard of the C code that the model does not capture.
- The bytes of the linker-embedded assets (index page, style sheet, robots file, favicon, font) are not modelled; only their names appear in the log.
- `ws_get_file_size` is not modelled: nothing in the core calls it.
- File reads: `fread` is modelled as returning min(remaining, 8192) bytes. Short reads and read errors are not modelled. In C, a read error ends the loop as end of file does.
- The ESP-IDF HTTP server is not modelled beyond the action log: `httpd_start`, registration results, the wildcard URI matcher, and what a second send after a completed response does on the wire. In the unmatched-URI API path the model logs both the 501 response and the 303 response, as the code sends them.
- `DownloadGet` requires a URI that starts with '/', as the "/*" wildcard registration delivers. This makes the trailing-slash test `filename[strlen(filename) - 1]` read inside the name.
- `DownloadGet` also requires the server data's base path to be "/spiffs", the only base path `start_file_server` stores. With that base, the macro's reads stay inside the path buffer. `GetSpec` and its lemmas hold for any base path.
- Logging, `volatile`, concurrency between handlers, the unused `MAX_FILE_SIZE` constants and the commented-out delete handler are not modelled.
