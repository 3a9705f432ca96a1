/**
 The libsane side of a scanner: the flags the repository's executable device (SaneMock.cpp) keeps per
 handle, an arbitrary script of read results in place of hardware, and the code flow of section 4.4 of
 the SANE Standard as an automaton over the calls made.
 */
module SaneApi {
  import opened Bytes

  datatype Status =
    | GOOD | UNSUPPORTED | CANCELLED | DEVICE_BUSY | INVAL | EOF
    | JAMMED | NO_DOCS | COVER_OPEN | IO_ERROR | NO_MEM | ACCESS_DENIED

  datatype Parameters = Parameters(
    format: int, lastFrame: bool, bytesPerLine: int, pixelsPerLine: int, lines: int, depth: int)

  /** The size of the buffer the scan server reads into. */
  const READ_MAX: nat := 2048

  datatype Call =
    | CallOpen(ok: bool) | CallStart(ok: bool) | CallGetParameters | CallRead(atEnd: bool)
    | CallCancel | CallCancelNull | CallClose

  /** What one successful read returns: at most a buffer's worth. */
  type Chunk = c: seq<byte> | |c| <= READ_MAX

  type Fault = s: Status | s != GOOD && s != EOF witness INVAL

  /** What a frame ends in: end of file, possibly with a last few bytes, or a failure. */
  datatype Ending = EndOfFrame(tail: Chunk) | Failure(status: Fault)

  /**
   A device and its one handle.  `chunks` and `ending` are the read results still to come; `delivered`
   and `calls` record what has been handed out and asked for so far.
   */
  datatype Backend = Backend(
    openStatus: Status, startStatus: Status, parametersStatus: Status, parameters: Parameters,
    open: bool, started: bool, cancelled: bool,
    chunks: seq<Chunk>, ending: Ending,
    delivered: seq<byte>, calls: seq<Call>)
  {
    /** The bytes still to come. */
    function Remaining(): seq<byte> {
      Flatten(chunks) + if ending.EndOfFrame? then ending.tail else []
    }

    function Log(call: Call): Backend {
      this.(calls := calls + [call])
    }
  }

  function Flatten(parts: seq<Chunk>): (all: seq<byte>)
    ensures parts == [] ==> all == []
  {
    if parts == [] then [] else parts[0] + Flatten(parts[1..])
  }

  datatype ReadResult = ReadResult(backend: Backend, status: Status, data: Chunk)

  function SaneOpen(b: Backend): Backend {
    var ok := b.openStatus == GOOD;
    b.Log(CallOpen(ok)).(open := ok || b.open)
  }

  function SaneStart(b: Backend): Backend {
    var ok := b.startStatus == GOOD;
    b.Log(CallStart(ok)).(started := ok || b.started, cancelled := !ok && b.cancelled)
  }

  /**
   A read.  On a handle that is not started the mock aborts the process; a conforming backend answers
   CANCELLED, which is how the model goes on after logging the call.
   */
  function SaneRead(b: Backend): (r: ReadResult)
    ensures r.backend.delivered == b.delivered + r.data
    ensures b.started ==> r.data + r.backend.Remaining() == b.Remaining()
    ensures r.status == GOOD ==> |r.backend.chunks| < |b.chunks|
    ensures r.backend.calls == b.calls + [CallRead(r.status == EOF)]
  {
    var logged := b.Log(CallRead(b.started && b.chunks == [] && b.ending.EndOfFrame?));
    if !b.started then
      ReadResult(logged, CANCELLED, [])
    else if b.chunks != [] then
      ReadResult(logged.(chunks := b.chunks[1..], delivered := b.delivered + b.chunks[0]), GOOD, b.chunks[0])
    else match b.ending
      case EndOfFrame(tail) =>
        ReadResult(logged.(ending := EndOfFrame([]), delivered := b.delivered + tail), EOF, tail)
      case Failure(status) => ReadResult(logged, status, [])
  }

  function SaneCancel(b: Backend): Backend {
    b.Log(CallCancel).(started := false, cancelled := true)
  }

  function SaneClose(b: Backend): Backend {
    b.Log(CallClose).(open := false, cancelled := false)
  }

  /** Where a handle stands in the code flow of section 4.4; in `Ended` a read has answered end of file. */
  datatype Phase = Shut | Idle | Scanning | Ended | Stopped | Violated

  /** After the end of a frame the flow goes on with the next frame's start or with a cancellation. */
  function Flow(p: Phase, c: Call): Phase {
    match c
    case CallOpen(ok) => if p != Shut then Violated else if ok then Idle else Shut
    case CallStart(ok) =>
      if p != Idle && p != Ended && p != Stopped then Violated else if ok then Scanning else p
    case CallGetParameters => if p == Shut then Violated else p
    case CallRead(atEnd) => if p != Scanning then Violated else if atEnd then Ended else Scanning
    case CallCancel => if p == Shut || p == Violated then Violated else Stopped
    case CallClose => if p == Stopped then Shut else Violated
    case CallCancelNull => Violated
  }

  function FlowOf(calls: seq<Call>): Phase {
    if calls == [] then Shut else Flow(FlowOf(calls[..|calls| - 1]), calls[|calls| - 1])
  }

  lemma FlowOfAppend(calls: seq<Call>, c: Call)
    ensures FlowOf(calls + [c]) == Flow(FlowOf(calls), c)
  {
    assert (calls + [c])[..|calls|] == calls;
  }
}
