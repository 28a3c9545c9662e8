/**
 * api_post_handler (webserver.c): a POST under /api/ sets one of the three
 * shared setpoints from the request body and redirects to '/'.
 */
module ApiPost {
  import opened Types
  import opened Http

  /** sizeof(content): the most body bytes the handler reads. */
  const CONTENT_BUFSIZE: nat := 100

  /** The receive timeout code of esp_http_server.h. */
  const HTTPD_SOCK_ERR_TIMEOUT: int := -3

  /** The receive error code esp_http_server.h uses for a failed socket. */
  const HTTPD_SOCK_ERR_FAIL: int := -1

  /** What httpd_req_recv delivers. */
  datatype RecvResult = Received(data: seq<byte>) | ConnectionClosed | Timeout | SocketError {
    /** The value httpd_req_recv returns: the byte count, 0 on a closed connection, or an error code. */
    function Ret(): int {
      match this
      case Received(d) => |d|
      case ConnectionClosed => 0
      case Timeout => HTTPD_SOCK_ERR_TIMEOUT
      case SocketError => HTTPD_SOCK_ERR_FAIL
    }
  }

  /** recv_size: the number of bytes the handler asks for, the declared length clipped to the buffer. */
  function RecvSize(contentLen: nat): (n: nat)
    ensures n <= CONTENT_BUFSIZE && n <= contentLen
    ensures n == contentLen || n == CONTENT_BUFSIZE
  {
    Min(contentLen, CONTENT_BUFSIZE)
  }

  /** The three setpoints the API can change. */
  datatype Setpoint = Goal | Over | Under

  /**
   * The setpoint a URI names. The raw request URI is compared, so a query
   * string or fragment makes it name none.
   */
  function TargetOf(uri: string): Option<Setpoint> {
    if uri == "/api/set_temp" then Some(Goal)
    else if uri == "/api/set_upper_margin" then Some(Over)
    else if uri == "/api/set_lower_margin" then Some(Under)
    else None
  }

  /** The values of goal, over and under; F stands for the firmware's float type. */
  datatype Setpoints<F> = Setpoints(goal: F, over: F, under: F) {
    function Get(t: Setpoint): F {
      match t
      case Goal => goal
      case Over => over
      case Under => under
    }

    /** The setpoints with t changed to v. */
    function Set(t: Setpoint, v: F): (s: Setpoints<F>)
      ensures s.Get(t) == v
      ensures forall u :: u != t ==> s.Get(u) == Get(u)
    {
      match t
      case Goal => this.(goal := v)
      case Over => this.(over := v)
      case Under => this.(under := v)
    }
  }

  const RedirectToRoot: seq<Event> :=
    [SetStatus("303 See Other"), SetHeader("Location", "/"), Send(Text("post processed successfully"))]

  const NotImplemented: seq<Event> :=
    [SetStatus("501 Not Implemented"), Send(Text("couldn't match that req to a server function"))]

  /** The result, actions and new setpoints of one POST. */
  datatype PostOutcome<F> = PostOutcome(result: HandlerResult, setpoints: Setpoints<F>)

  /**
   * What a POST to uri with the given declared length does, when the receive
   * delivers recv and parse stands for atof.
   */
  function PostSpec<F>(s: Setpoints<F>, uri: string, contentLen: nat, recv: RecvResult,
                       parse: seq<byte> -> F): PostOutcome<F>
  {
    var asked := [Receive(RecvSize(contentLen))];
    if recv.Ret() <= 0 then
      var timeout := if recv.Ret() == HTTPD_SOCK_ERR_TIMEOUT then [Send408] else [];
      PostOutcome(HandlerResult(EspFail, asked + timeout), s)
    else
      match TargetOf(uri)
      case Some(t) =>
        PostOutcome(HandlerResult(EspOk, asked + [UpdateDisplay] + RedirectToRoot), s.Set(t, parse(recv.data)))
      case None =>
        PostOutcome(HandlerResult(EspOk, asked + NotImplemented + RedirectToRoot), s)
  }

  /**
   * A failed receive changes no setpoint, does not refresh the display and
   * fails; a 408 is sent exactly on a timeout.
   */
  lemma PostReceiveFailure<F>(s: Setpoints<F>, uri: string, contentLen: nat, recv: RecvResult,
                              parse: seq<byte> -> F)
    requires !recv.Received? || |recv.data| == 0
    ensures var o := PostSpec(s, uri, contentLen, recv, parse);
            o.setpoints == s && o.result.err == EspFail &&
            (Send408 in o.result.log <==> recv == Timeout) &&
            UpdateDisplay !in o.result.log
  {
  }

  /**
   * A received body sets exactly the setpoint the URI names, to the parsed
   * body, and refreshes the display once; the others keep their values. An
   * unknown URI changes nothing and gets a 501. Either way the handler ends
   * with the 303 redirect to '/' and succeeds.
   */
  lemma {:induction false} PostReceived<F>(s: Setpoints<F>, uri: string, contentLen: nat, data: seq<byte>,
                                           parse: seq<byte> -> F)
    requires |data| > 0
    ensures var o := PostSpec(s, uri, contentLen, Received(data), parse);
            var log := o.result.log;
            o.result.err == EspOk &&
            log[0] == Receive(RecvSize(contentLen)) &&
            |log| >= 4 && log[|log| - 3..] == RedirectToRoot &&
            (forall u :: Some(u) != TargetOf(uri) ==> o.setpoints.Get(u) == s.Get(u)) &&
            (TargetOf(uri).Some? ==>
               o.setpoints.Get(TargetOf(uri).value) == parse(data) && Count(log, UpdateDisplay) == 1) &&
            (TargetOf(uri).None? ==>
               o.setpoints == s && Count(log, UpdateDisplay) == 0 && SetStatus("501 Not Implemented") in log)
  {
    if TargetOf(uri).Some? {
      MatchedLog(RecvSize(contentLen));
    } else {
      UnmatchedLog(RecvSize(contentLen));
    }
  }

  /** The log of a matched POST refreshes the display once and ends with the redirect. */
  lemma MatchedLog(size: nat)
    ensures var log := [Receive(size)] + [UpdateDisplay] + RedirectToRoot;
            |log| >= 4 && log[|log| - 3..] == RedirectToRoot && Count(log, UpdateDisplay) == 1
  {
    var asked := [Receive(size)];
    assert Count(RedirectToRoot, UpdateDisplay) == 0;
    CountAppend(asked + [UpdateDisplay], RedirectToRoot, UpdateDisplay);
    CountAppend(asked, [UpdateDisplay], UpdateDisplay);
  }

  /** The log of an unmatched POST sets 501, never refreshes the display and ends with the redirect. */
  lemma UnmatchedLog(size: nat)
    ensures var log := [Receive(size)] + NotImplemented + RedirectToRoot;
            |log| >= 4 && log[|log| - 3..] == RedirectToRoot && Count(log, UpdateDisplay) == 0 &&
            SetStatus("501 Not Implemented") in log
  {
    var asked := [Receive(size)];
    var log := asked + NotImplemented + RedirectToRoot;
    assert log[1] == SetStatus("501 Not Implemented");
    assert Count(RedirectToRoot, UpdateDisplay) == 0;
    assert Count(NotImplemented, UpdateDisplay) == 0;
    CountAppend(asked + NotImplemented, RedirectToRoot, UpdateDisplay);
    CountAppend(asked, NotImplemented, UpdateDisplay);
  }

  /** Repeating the same POST leaves the same setpoints and gets the same response. */
  lemma PostIdempotent<F>(s: Setpoints<F>, uri: string, contentLen: nat, recv: RecvResult,
                          parse: seq<byte> -> F)
    ensures var o := PostSpec(s, uri, contentLen, recv, parse);
            PostSpec(o.setpoints, uri, contentLen, recv, parse) == o
  {
  }

  /** A URI with a query string or fragment never names a setpoint. */
  lemma QueryDefeatsMatch(uri: string, suffix: string)
    requires |suffix| > 0 && (suffix[0] == '?' || suffix[0] == '#')
    ensures TargetOf(uri + suffix) == None
  {
    var u := uri + suffix;
    assert u[|uri|] == suffix[0];
    assert '?' !in "/api/set_temp" && '#' !in "/api/set_temp";
    assert '?' !in "/api/set_upper_margin" && '#' !in "/api/set_upper_margin";
    assert '?' !in "/api/set_lower_margin" && '#' !in "/api/set_lower_margin";
  }

  /** The firmware's shared goal, over and under globals. */
  class SharedSetpoints<F> {
    var goal: F
    var over: F
    var under: F

    constructor(goal: F, over: F, under: F)
      ensures Values() == Setpoints(goal, over, under)
    {
      this.goal, this.over, this.under := goal, over, under;
    }

    function Values(): Setpoints<F>
      reads this
    {
      Setpoints(goal, over, under)
    }
  }

  /**
   * api_post_handler for a POST to uri with the given declared body length;
   * recv is what the receive call delivers and parse stands for atof. Its
   * actions, result and new setpoints are those of PostSpec.
   */
  method ApiPostHandler<F>(shared: SharedSetpoints<F>, uri: string, contentLen: nat, recv: RecvResult,
                           parse: seq<byte> -> F)
    returns (res: HandlerResult)
    requires recv.Received? ==> |recv.data| <= RecvSize(contentLen)
    modifies shared
    ensures PostOutcome(res, shared.Values()) == PostSpec(old(shared.Values()), uri, contentLen, recv, parse)
  {
    var recvSize := Min(contentLen, CONTENT_BUFSIZE);
    var log := [Receive(recvSize)];
    var ret := recv.Ret();
    if ret <= 0 {
      if ret == HTTPD_SOCK_ERR_TIMEOUT {
        log := log + [Send408];
      }
      return HandlerResult(EspFail, log);
    }
    var content := recv.data;
    if uri == "/api/set_temp" {
      shared.goal := parse(content);
      log := log + [UpdateDisplay];
    } else if uri == "/api/set_upper_margin" {
      shared.over := parse(content);
      log := log + [UpdateDisplay];
    } else if uri == "/api/set_lower_margin" {
      shared.under := parse(content);
      log := log + [UpdateDisplay];
    } else {
      log := log + [SetStatus("501 Not Implemented"), Send(Text("couldn't match that req to a server function"))];
    }
    log := log + [SetStatus("303 See Other"), SetHeader("Location", "/"), Send(Text("post processed successfully"))];
    return HandlerResult(EspOk, log);
  }
}
