/**
 * The chunked file transfer of download_get_handler (webserver.c): the file
 * is read into the server's scratch buffer one buffer-full at a time and each
 * non-empty piece is sent as an HTTP chunk.
 */
module ChunkStream {
  import opened Types
  import opened Http

  /** Size of the scratch buffer, and so the largest chunk. */
  const SCRATCH_BUFSIZE: nat := 8192

  function Concat(cs: seq<seq<byte>>): seq<byte> {
    if |cs| == 0 then [] else cs[0] + Concat(cs[1..])
  }

  lemma {:induction false} ConcatAppend(a: seq<seq<byte>>, b: seq<seq<byte>>)
    ensures Concat(a + b) == Concat(a) + Concat(b)
  {
    if |a| == 0 {
      assert a + b == b;
    } else {
      assert (a + b)[1..] == a[1..] + b;
      ConcatAppend(a[1..], b);
    }
  }

  /** The pieces successive reads of SCRATCH_BUFSIZE bytes return for a file. */
  function Chunks(data: seq<byte>): seq<seq<byte>>
    decreases |data|
  {
    if |data| == 0 then []
    else
      var n := Min(|data|, SCRATCH_BUFSIZE);
      [data[..n]] + Chunks(data[n..])
  }

  /** No piece is empty, none is larger than the buffer, and together they are the whole file. */
  lemma {:induction false} ChunksCoverFile(data: seq<byte>)
    ensures forall k :: 0 <= k < |Chunks(data)| ==> 0 < |Chunks(data)[k]| <= SCRATCH_BUFSIZE
    ensures Concat(Chunks(data)) == data
    decreases |data|
  {
    if |data| > 0 {
      var n := Min(|data|, SCRATCH_BUFSIZE);
      ChunksCoverFile(data[n..]);
      var cs := Chunks(data);
      assert cs == [data[..n]] + Chunks(data[n..]);
      assert cs[1..] == Chunks(data[n..]);
      assert data == data[..n] + data[n..];
    }
  }

  /** The chunk sends for a sequence of file pieces. */
  function DataSends(cs: seq<seq<byte>>): seq<Event> {
    seq(|cs|, k requires 0 <= k < |cs| => SendChunk(Bytes(cs[k])))
  }

  /** The index of the first failing send among the first n, if any. */
  function FirstFailure(n: nat, sendOk: nat -> bool): (r: Option<nat>)
    ensures r.Some? ==> r.value < n && !sendOk(r.value) && forall k :: 0 <= k < r.value ==> sendOk(k)
    ensures r.None? ==> forall k :: 0 <= k < n ==> sendOk(k)
  {
    FirstFailureFrom(0, n, sendOk)
  }

  function FirstFailureFrom(i: nat, n: nat, sendOk: nat -> bool): (r: Option<nat>)
    requires i <= n
    ensures r.Some? ==> i <= r.value < n && !sendOk(r.value) && forall k :: i <= k < r.value ==> sendOk(k)
    ensures r.None? ==> forall k :: i <= k < n ==> sendOk(k)
    decreases n - i
  {
    if i == n then None
    else if !sendOk(i) then Some(i)
    else FirstFailureFrom(i + 1, n, sendOk)
  }

  /** How a failed chunk send ends the response: close the file, end the chunked body, send a 500. */
  const AbortTail := [CloseFile, SendChunk(LastChunk), SendErr(500, "Failed to send file")]

  /**
   * What streaming a file with contents data does, when the i-th chunk send
   * succeeds exactly if sendOk(i): every chunk up to the first failure is sent;
   * then the file is closed and an empty chunk ends the response, followed by
   * a 500 when a send failed.
   */
  function StreamSpec(data: seq<byte>, sendOk: nat -> bool): HandlerResult {
    var cs := Chunks(data);
    match FirstFailure(|cs|, sendOk)
    case None => HandlerResult(EspOk, DataSends(cs) + [CloseFile, SendChunk(LastChunk)])
    case Some(k) =>
      HandlerResult(EspFail, DataSends(cs[..k + 1]) + AbortTail)
  }

  /** The file bytes the chunk sends of a log carry, in order. */
  function SentBytes(log: seq<Event>): seq<byte> {
    if |log| == 0 then []
    else
      (match log[0] case SendChunk(Bytes(d)) => d case _ => []) + SentBytes(log[1..])
  }

  lemma {:induction false} SentBytesAppend(a: seq<Event>, b: seq<Event>)
    ensures SentBytes(a + b) == SentBytes(a) + SentBytes(b)
  {
    if |a| == 0 {
      assert a + b == b;
    } else {
      assert (a + b)[1..] == a[1..] + b;
      SentBytesAppend(a[1..], b);
    }
  }

  /** A log without a non-empty chunk of file bytes carries no file bytes. */
  lemma {:induction false} SentBytesNone(log: seq<Event>)
    requires forall i :: 0 <= i < |log| ==> !(log[i].SendChunk? && log[i].chunk.Bytes? && |log[i].chunk.data| > 0)
    ensures SentBytes(log) == []
  {
    if |log| > 0 {
      SentBytesNone(log[1..]);
    }
  }

  lemma {:induction false} SentBytesOfDataSends(cs: seq<seq<byte>>)
    ensures SentBytes(DataSends(cs)) == Concat(cs)
  {
    if |cs| > 0 {
      assert DataSends(cs) == [SendChunk(Bytes(cs[0]))] + DataSends(cs[1..]);
      SentBytesAppend([SendChunk(Bytes(cs[0]))], DataSends(cs[1..]));
      SentBytesOfDataSends(cs[1..]);
    }
  }

  lemma {:induction false} NoCloseInDataSends(cs: seq<seq<byte>>)
    requires forall k :: 0 <= k < |cs| ==> |cs[k]| > 0
    ensures Count(DataSends(cs), CloseFile) == 0
    ensures Count(DataSends(cs), SendChunk(LastChunk)) == 0
  {
    forall k | 0 <= k < |cs| ensures DataSends(cs)[k] != SendChunk(LastChunk) {
      assert DataSends(cs)[k] == SendChunk(Bytes(cs[k]));
    }
  }

  /**
   * A stream whose sends all succeed: the chunk sends carry exactly the file,
   * in order; the file is closed once; exactly one empty chunk is sent, and it
   * is the last action.
   */
  lemma {:induction false} StreamSuccess(data: seq<byte>, sendOk: nat -> bool)
    requires forall k :: 0 <= k < |Chunks(data)| ==> sendOk(k)
    ensures var res := StreamSpec(data, sendOk);
            res.err == EspOk &&
            |res.log| >= 2 &&
            (forall i :: 0 <= i < |res.log| - 2 ==>
               res.log[i].SendChunk? && res.log[i].chunk.Bytes? &&
               0 < |res.log[i].chunk.data| <= SCRATCH_BUFSIZE) &&
            SentBytes(res.log) == data &&
            Count(res.log, CloseFile) == 1 &&
            Count(res.log, SendChunk(LastChunk)) == 1 &&
            res.log[|res.log| - 1] == SendChunk(LastChunk)
  {
    var cs := Chunks(data);
    ChunksCoverFile(data);
    assert FirstFailure(|cs|, sendOk) == None;
    CompletedLog(cs);
  }

  /** The log of a stream over the pieces cs whose sends all succeed. */
  lemma CompletedLog(cs: seq<seq<byte>>)
    requires forall k :: 0 <= k < |cs| ==> 0 < |cs[k]| <= SCRATCH_BUFSIZE
    ensures var log := DataSends(cs) + [CloseFile, SendChunk(LastChunk)];
            |log| >= 2 &&
            (forall i :: 0 <= i < |log| - 2 ==>
               log[i].SendChunk? && log[i].chunk.Bytes? &&
               0 < |log[i].chunk.data| <= SCRATCH_BUFSIZE) &&
            SentBytes(log) == Concat(cs) &&
            Count(log, CloseFile) == 1 &&
            Count(log, SendChunk(LastChunk)) == 1 &&
            log[|log| - 1] == SendChunk(LastChunk)
  {
    var tail := [CloseFile, SendChunk(LastChunk)];
    var log := DataSends(cs) + tail;
    forall i | 0 <= i < |log| - 2
      ensures log[i].SendChunk? && log[i].chunk.Bytes? && 0 < |log[i].chunk.data| <= SCRATCH_BUFSIZE
    {
      assert log[i] == SendChunk(Bytes(cs[i]));
    }
    assert SentBytes(log) == Concat(cs) by {
      SentBytesAppend(DataSends(cs), tail);
      SentBytesOfDataSends(cs);
      SentBytesNone(tail);
    }
    NoCloseInDataSends(cs);
    CountAppend(DataSends(cs), tail, CloseFile);
    CountAppend(DataSends(cs), tail, SendChunk(LastChunk));
  }

  /**
   * A stream where the k-th send is the first to fail: no data is sent after
   * it, the bytes sent are a prefix of the file, the file is closed once, and
   * the response ends with an empty chunk and then a 500.
   */
  lemma {:induction false} StreamFailure(data: seq<byte>, sendOk: nat -> bool, k: nat)
    requires k < |Chunks(data)| && !sendOk(k)
    requires forall j :: 0 <= j < k ==> sendOk(j)
    ensures var res := StreamSpec(data, sendOk);
            var n := |res.log|;
            res.err == EspFail &&
            n == k + 4 &&
            (forall j :: 0 <= j <= k ==> res.log[j].SendChunk? && res.log[j].chunk != LastChunk) &&
            res.log[n - 3..] == AbortTail &&
            SentBytes(res.log) <= data &&
            Count(res.log, CloseFile) == 1
  {
    var cs := Chunks(data);
    ChunksCoverFile(data);
    assert FirstFailure(|cs|, sendOk) == Some(k);
    AbortedLog(cs, k);
  }

  /** The log of a stream over the pieces cs whose k-th send is the first to fail. */
  lemma AbortedLog(cs: seq<seq<byte>>, k: nat)
    requires k < |cs|
    requires forall j :: 0 <= j < |cs| ==> |cs[j]| > 0
    ensures var log := DataSends(cs[..k + 1]) + AbortTail;
            |log| == k + 4 &&
            (forall j :: 0 <= j <= k ==> log[j].SendChunk? && log[j].chunk != LastChunk) &&
            log[k + 1..] == AbortTail &&
            SentBytes(log) <= Concat(cs) &&
            Count(log, CloseFile) == 1
  {
    var sent := DataSends(cs[..k + 1]);
    var log := sent + AbortTail;
    forall j | 0 <= j <= k ensures log[j].SendChunk? && log[j].chunk != LastChunk {
      assert log[j] == SendChunk(Bytes(cs[j]));
    }
    assert log[k + 1..] == AbortTail;
    assert SentBytes(log) <= Concat(cs) by {
      assert cs == cs[..k + 1] + cs[k + 1..];
      AbortedBytes(cs[..k + 1], cs[k + 1..]);
    }
    assert Count(log, CloseFile) == 1 by {
      NoCloseInDataSends(cs[..k + 1]);
      CountAppend(sent, AbortTail, CloseFile);
    }
  }

  /** An aborted stream has sent a prefix of the file's bytes: the pieces p sent before the abort, out of p + q. */
  lemma AbortedBytes(p: seq<seq<byte>>, q: seq<seq<byte>>)
    ensures SentBytes(DataSends(p) + AbortTail) <= Concat(p + q)
  {
    AbortedSendsCarry(p);
    ConcatAppend(p, q);
  }

  /** The sends of an aborted stream carry exactly the pieces sent before the abort. */
  lemma AbortedSendsCarry(p: seq<seq<byte>>)
    ensures SentBytes(DataSends(p) + AbortTail) == Concat(p)
  {
    SentBytesAppend(DataSends(p), AbortTail);
    SentBytesOfDataSends(p);
    AbortTailCarriesNoBytes();
  }

  lemma AbortTailCarriesNoBytes()
    ensures SentBytes(AbortTail) == []
  {
    SentBytesNone(AbortTail);
  }

  /** The stream fails exactly when one of the chunk sends fails. */
  lemma StreamFailsIffSendFails(data: seq<byte>, sendOk: nat -> bool)
    ensures StreamSpec(data, sendOk).err == EspFail <==>
              exists k :: 0 <= k < |Chunks(data)| && !sendOk(k)
  {
  }

  /** fread(scratch, 1, SCRATCH_BUFSIZE, fd) at file position pos: the next bytes, at most a buffer-full. */
  method Fread(scratch: array<byte>, data: seq<byte>, pos: nat) returns (n: nat)
    requires pos <= |data|
    modifies scratch
    ensures n == Min(|data| - pos, scratch.Length)
    ensures scratch[..n] == data[pos..pos + n]
  {
    n := Min(|data| - pos, scratch.Length);
    var i := 0;
    while i < n
      invariant 0 <= i <= n
      invariant scratch[..i] == data[pos..pos + i]
    {
      scratch[i] := data[pos + i];
      i := i + 1;
    }
  }

  lemma DataSendsSnoc(done: seq<seq<byte>>, chunk: seq<byte>)
    ensures DataSends(done + [chunk]) == DataSends(done) + [SendChunk(Bytes(chunk))]
  {
  }

  /** The loop's state when the send of the last piece in done has just failed. */
  lemma StreamSpecAtFailure(data: seq<byte>, sendOk: nat -> bool, done: seq<seq<byte>>, rest: seq<seq<byte>>)
    requires Chunks(data) == done + rest && |done| > 0
    requires !sendOk(|done| - 1) && forall k :: 0 <= k < |done| - 1 ==> sendOk(k)
    ensures StreamSpec(data, sendOk) ==
              HandlerResult(EspFail, DataSends(done) + AbortTail)
  {
    var cs := Chunks(data);
    assert cs[..|done|] == done;
    assert FirstFailure(|cs|, sendOk) == Some(|done| - 1);
  }

  /** The loop's state at end of file, every send having succeeded. */
  lemma StreamSpecAtEnd(data: seq<byte>, sendOk: nat -> bool, done: seq<seq<byte>>)
    requires Chunks(data) == done && forall k :: 0 <= k < |done| ==> sendOk(k)
    ensures StreamSpec(data, sendOk) == HandlerResult(EspOk, DataSends(done) + [CloseFile, SendChunk(LastChunk)])
  {
    assert FirstFailure(|done|, sendOk) == None;
  }

  /** One read's worth of Chunks. */
  lemma ChunksStep(data: seq<byte>, pos: nat, n: nat)
    requires pos < |data| && n == Min(|data| - pos, SCRATCH_BUFSIZE)
    ensures Chunks(data[pos..]) == [data[pos..pos + n]] + Chunks(data[pos + n..])
  {
    assert data[pos..][..n] == data[pos..pos + n];
    assert data[pos..][n..] == data[pos + n..];
  }

  /**
   * The do-while loop of download_get_handler for an opened file with contents
   * data, reusing the scratch buffer; the i-th chunk send succeeds exactly if
   * sendOk(i). Its actions and result are those of StreamSpec.
   */
  method StreamFile(data: seq<byte>, scratch: array<byte>, sendOk: nat -> bool) returns (res: HandlerResult)
    requires scratch.Length == SCRATCH_BUFSIZE
    modifies scratch
    ensures res == StreamSpec(data, sendOk)
  {
    var pos := 0;
    var sent := 0;
    var log: seq<Event> := [];
    ghost var done: seq<seq<byte>> := [];
    while true
      invariant pos <= |data|
      invariant Chunks(data) == done + Chunks(data[pos..])
      invariant sent == |done|
      invariant log == DataSends(done)
      invariant forall k :: 0 <= k < sent ==> sendOk(k)
      decreases |data| - pos
    {
      var chunksize := Fread(scratch, data, pos);
      if chunksize > 0 {
        var chunk := scratch[..chunksize];
        assert Chunks(data) == (done + [chunk]) + Chunks(data[pos + chunksize..]) by {
          assert chunk == data[pos..pos + chunksize];
          ChunksStep(data, pos, chunksize);
        }
        assert log + [SendChunk(Bytes(chunk))] == DataSends(done + [chunk]) by {
          DataSendsSnoc(done, chunk);
        }
        log := log + [SendChunk(Bytes(chunk))];
        done := done + [chunk];
        if !sendOk(sent) {
          StreamSpecAtFailure(data, sendOk, done, Chunks(data[pos + chunksize..]));
          log := log + [CloseFile, SendChunk(LastChunk), SendErr(500, "Failed to send file")];
          return HandlerResult(EspFail, log);
        }
        assert forall k :: 0 <= k < sent + 1 ==> sendOk(k);
        sent := sent + 1;
        pos := pos + chunksize;
      }
      if chunksize == 0 {
        break;
      }
    }
    assert Chunks(data) == done;
    StreamSpecAtEnd(data, sendOk, done);
    log := log + [CloseFile, SendChunk(LastChunk)];
    return HandlerResult(EspOk, log);
  }
}
