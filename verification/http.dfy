/**
 * The interface to the ESP-IDF HTTP server and to the rest of the firmware,
 * as the handlers use it: error codes, embedded assets, and the log of
 * actions a handler takes on its response, its file and the display.
 */
module Http {
  import opened Types

  /** The esp_err_t values the core returns. */
  datatype EspErr = EspOk | EspFail | ErrNoMem | ErrInvalidArg | ErrInvalidState {
    /** The numeric value from esp_err.h. */
    function Code(): int {
      match this
      case EspOk => 0
      case EspFail => -1
      case ErrNoMem => 0x101
      case ErrInvalidArg => 0x102
      case ErrInvalidState => 0x103
    }
  }

  /** Assets linked into the firmware image; their bytes are not part of the model. */
  datatype Embedded = IndexHtml | StyleCss | RobotsTxt | FaviconIco | UbuntuWoff2

  /** A response body or chunk: bytes read from a file, a literal string, or an embedded asset. */
  datatype Body = Bytes(data: seq<byte>) | Text(s: string) | Asset(asset: Embedded)

  /** The empty chunk that ends a chunked response. */
  const LastChunk: Body := Bytes([])

  /** One action of a handler, in the order it happens. */
  datatype Event =
    | SetStatus(status: string)        // httpd_resp_set_status
    | SetType(contentType: string)     // httpd_resp_set_type
    | SetHeader(field: string, value: string)  // httpd_resp_set_hdr
    | Send(body: Body)                 // httpd_resp_send, httpd_resp_sendstr
    | SendChunk(chunk: Body)           // httpd_resp_send_chunk, httpd_resp_sendstr_chunk
    | SendErr(code: nat, message: string)  // httpd_resp_send_err
    | Send408                          // httpd_resp_send_408
    | Receive(size: nat)               // httpd_req_recv asking for size bytes
    | CloseFile                        // fclose
    | UpdateDisplay                    // update_display

  /** What a handler returns, with the actions it took. */
  datatype HandlerResult = HandlerResult(err: EspErr, log: seq<Event>)

  /** The number of times e occurs in log. */
  function Count(log: seq<Event>, e: Event): (n: nat)
    ensures n <= |log|
    ensures n == 0 <==> e !in log
  {
    if |log| == 0 then 0
    else (if log[0] == e then 1 else 0) + Count(log[1..], e)
  }

  lemma {:induction false} CountAppend(a: seq<Event>, b: seq<Event>, e: Event)
    ensures Count(a + b, e) == Count(a, e) + Count(b, e)
  {
    if |a| > 0 {
      assert (a + b)[1..] == a[1..] + b;
      CountAppend(a[1..], b, e);
    } else {
      assert a + b == b;
    }
  }
}
