/**
 `CScanResponseReactor` as a state machine on values.  gRPC is the environment: it completes writes, may
 cancel, and says goodbye once `Finish` has been called and nothing is outstanding.
 */
module ServerModel {
  import opened Bytes
  import opened SaneApi
  import opened DeviceModel

  /** The gRPC status codes the reactor uses. */
  datatype Code = OK | CANCELLED_CALL | UNKNOWN | ABORTED

  /** `ScanResponse`: both payload fields are optional. */
  datatype Message = Message(scannerName: string, data: Option<seq<byte>>, parameters: Option<Parameters>)

  const THRESHOLD: nat := 10240

  /**
   The reactor's fields, and what gRPC has seen of it: the messages of all `StartWrite` calls, how many of
   them have not completed, the arguments of all base `Finish` calls, and whether a write was ever started
   after one of those.
   */
  datatype Server = Server(
    device: Device, finished: bool, bytes: seq<byte>, response: Message,
    sent: seq<Message>, outstanding: nat, statuses: seq<Code>, lateWrite: bool, gone: bool)

  function Reset(s: Server): Server {
    s.(response := Message(s.device.name, None, None), bytes := [])
  }

  function StartWrite(s: Server): Server {
    s.(sent := s.sent + [s.response], outstanding := s.outstanding + 1, lateWrite := s.lateWrite || s.statuses != [])
  }

  function WriteResponse(s: Server): Server {
    StartWrite(s.(response := s.response.(data := Some(s.bytes))))
  }

  function Finish(s: Server, code: Code): Server {
    if s.finished then s else s.(finished := true, statuses := s.statuses + [code])
  }

  /** Why the read loop stopped: threshold reached, end of file, or any other status. */
  datatype Stop = Full | AtEnd | Broken

  datatype Pulled = Pulled(device: Device, bytes: seq<byte>, stop: Stop)

  function Pull(d: Device, bytes: seq<byte>): Pulled
    decreases |d.backend.chunks|
  {
    var r := Read(d);
    var more := if r.status == GOOD || r.status == EOF then bytes + r.data else bytes;
    if |more| >= THRESHOLD then Pulled(r.device, more, Full)
    else if r.status == GOOD then Pull(r.device, more)
    else Pulled(r.device, more, if r.status == EOF then AtEnd else Broken)
  }

  /** One turn of the read loop. */
  lemma PullTurn(d: Device, bytes: seq<byte>)
    ensures var r := Read(d);
            var more := if r.status == GOOD || r.status == EOF then bytes + r.data else bytes;
            Pull(d, bytes) ==
            if |more| >= THRESHOLD then Pulled(r.device, more, Full)
            else if r.status == GOOD then Pull(r.device, more)
            else Pulled(r.device, more, if r.status == EOF then AtEnd else Broken)
  {
  }

  /** `next_packet` up to, but not including, its last line: `atEnd` says that last line is still to run. */
  datatype Prepared = Prepared(server: Server, atEnd: bool)

  function Prepare(s: Server): Prepared
  {
    var p := Pull(s.device, []);
    var loaded := Reset(s).(device := p.device, bytes := p.bytes);
    match p.stop
    case Full => Prepared(WriteResponse(loaded), false)
    case AtEnd => Prepared(WriteResponse(loaded), true)
    case Broken => Prepared(Finish(loaded, ABORTED), false)
  }

  function NextPacket(s: Server): Server
  {
    var p := Prepare(s);
    if p.atEnd then Finish(p.server, OK) else p.server
  }

  /** The constructor: open, start, fetch the parameters and send them. */
  function StartScan(d: Device): Server {
    var s := Reset(Server(d, false, [], Message("", None, None), [], 0, [], false, false));
    var opening := Open(d);
    if opening.status != GOOD then Finish(s.(device := opening.device), CANCELLED_CALL) else
    var starting := Start(opening.device);
    if starting.status != GOOD then Finish(s.(device := starting.device), CANCELLED_CALL) else
    var fetching := RefreshParameters(starting.device);
    var ready := s.(device := fetching.device);
    if fetching.status != GOOD then Finish(ready, CANCELLED_CALL) else
    StartWrite(ready.(response := ready.response.(parameters := Some(d.backend.parameters))))
  }

  /** What gRPC may do next. */
  datatype Event = WriteDone(ok: bool) | OnCancel | OnDone

  predicate Enabled(s: Server, e: Event) {
    && !s.gone
    && match e
       case WriteDone(_) => s.outstanding > 0
       case OnCancel => true
       case OnDone => s.statuses != [] && s.outstanding == 0
  }

  function OnWriteDone(s: Server, ok: bool): Server
    requires s.outstanding > 0
  {
    var completed := s.(outstanding := s.outstanding - 1);
    if s.finished then completed
    else if ok then NextPacket(completed)
    else Finish(completed, UNKNOWN)
  }

  /** One reaction, run to its end; an event gRPC cannot deliver now changes nothing. */
  function Step(s: Server, e: Event): Server {
    if !Enabled(s, e) then s else
    match e
    case WriteDone(ok) => OnWriteDone(s, ok)
    case OnCancel => s.(device := Cancel(s.device))
    case OnDone => s.(device := Close(s.device), gone := true)
  }

  /** The bytes of all data packets, in the order they were sent. */
  function Payload(messages: seq<Message>): seq<byte> {
    if messages == [] then [] else
    var last := messages[|messages| - 1];
    Payload(messages[..|messages| - 1]) + if last.data.Some? then last.data.value else []
  }

  lemma PayloadOfAppend(messages: seq<Message>, m: Message)
    ensures Payload(messages + [m]) == Payload(messages) + if m.data.Some? then m.data.value else []
  {
    assert (messages + [m])[..|messages|] == messages;
  }

  /** An upper bound on the packets still to come from a backend. */
  function Budget(b: Backend): nat {
    |b.chunks| + if b.ending.EndOfFrame? && b.ending.tail != [] then 1 else 0
  }

  /** Everything the device has delivered or will deliver. */
  function Total(b: Backend): seq<byte> {
    b.delivered + b.Remaining()
  }

  /** The read loop changes nothing of the device but libsane's side, and takes nothing it does not hand out. */
  lemma {:induction false} PullKeepsTotal(d: Device, bytes: seq<byte>)
    ensures var p := Pull(d, bytes);
            p.device == d.(backend := p.device.backend) && Total(p.device.backend) == Total(d.backend)
    decreases |d.backend.chunks|
  {
    var r := Read(d);
    if d.hasHandle && d.state == STARTED && d.backend.started {
      ReadKeepsTotal(d.backend);
    }
    if r.status == GOOD && |bytes + r.data| < THRESHOLD {
      PullKeepsTotal(r.device, bytes + r.data);
    }
  }

  lemma {:induction false} PullDelivers(d: Device, bytes: seq<byte>)
    ensures var p := Pull(d, bytes);
            bytes <= p.bytes && p.device.backend.delivered == d.backend.delivered + p.bytes[|bytes|..]
    decreases |d.backend.chunks|
  {
    var r := Read(d);
    ReadDelivers(d);
    if r.status == GOOD && |bytes + r.data| < THRESHOLD {
      PullDelivers(r.device, bytes + r.data);
      TailsJoin(bytes, r.data, Pull(r.device, bytes + r.data).bytes);
    } else {
      assert Pull(d, bytes).device == r.device;
      assert (bytes + r.data)[|bytes|..] == r.data;
    }
  }

  lemma ReadDelivers(d: Device)
    ensures Read(d).device.backend.delivered == d.backend.delivered + Read(d).data
    ensures Read(d).status != GOOD && Read(d).status != EOF ==> Read(d).data == []
  {
  }

  lemma TailsJoin(bytes: seq<byte>, data: seq<byte>, all: seq<byte>)
    requires bytes + data <= all
    ensures bytes <= all && all[|bytes|..] == data + all[|bytes + data|..]
  {
  }

  /** How much it gathers, and that it uses the device up. */
  lemma {:induction false} PullBounds(d: Device, bytes: seq<byte>)
    requires |bytes| < THRESHOLD
    ensures var p := Pull(d, bytes); var b, b' := d.backend, p.device.backend;
            && (p.stop == Full ==> THRESHOLD <= |p.bytes| < THRESHOLD + READ_MAX && Budget(b') < Budget(b))
            && (p.stop != Full ==> |p.bytes| < THRESHOLD)
            && (p.stop == AtEnd ==> b'.Remaining() == [])
    decreases |d.backend.chunks|
  {
    var r := Read(d);
    if r.status == GOOD && |bytes + r.data| < THRESHOLD {
      PullBounds(r.device, bytes + r.data);
    }
  }

  lemma ReadKeepsTotal(b: Backend)
    requires b.started
    ensures Total(SaneRead(b).backend) == Total(b)
  {
    var r := SaneRead(b);
    assert b.delivered + r.data + r.backend.Remaining() == b.delivered + (r.data + r.backend.Remaining());
  }

  /** The read loop touches the handle's flags not at all. */
  lemma {:induction false} PullKeepsFlags(d: Device, bytes: seq<byte>)
    ensures var b, b' := d.backend, Pull(d, bytes).device.backend;
            && b'.open == b.open && b'.started == b.started && b'.cancelled == b.cancelled
            && b'.openStatus == b.openStatus && b'.startStatus == b.startStatus
    decreases |d.backend.chunks|
  {
    var r := Read(d);
    if r.status == GOOD && |bytes + r.data| < THRESHOLD {
      PullKeepsFlags(r.device, bytes + r.data);
    }
  }

  /** The latest call was a read that answered end of file. */
  predicate EndSeen(b: Backend) {
    b.calls != [] && b.calls[|b.calls| - 1] == CallRead(true)
  }

  lemma ReadFlow(d: Device)
    requires d.hasHandle && d.state == STARTED
    ensures var b := Read(d).device.backend;
            && FlowOf(b.calls) == Flow(FlowOf(d.backend.calls), CallRead(Read(d).status == EOF))
            && (EndSeen(b) <==> Read(d).status == EOF)
  {
    FlowOfAppend(d.backend.calls, CallRead(Read(d).status == EOF));
  }

  /** A phase after any number of reads, of which only the last may answer end of file. */
  function AfterReads(p: Phase, atEnd: bool): Phase {
    if p != Scanning then Violated else if atEnd then Ended else Scanning
  }

  lemma {:induction false} ReadsFlow(d: Device, bytes: seq<byte>)
    requires d.hasHandle && d.state == STARTED
    ensures var b := Pull(d, bytes).device.backend;
            FlowOf(b.calls) == AfterReads(FlowOf(d.backend.calls), EndSeen(b))
    decreases |d.backend.chunks|
  {
    var r := Read(d);
    ReadFlow(d);
    if r.status == GOOD && |bytes + r.data| < THRESHOLD {
      ReadsFlow(r.device, bytes + r.data);
      FlowsOn(d, r.device, Pull(r.device, bytes + r.data).device);
    } else {
      assert Pull(d, bytes).device == r.device;
    }
  }

  /** And it calls nothing but `sane_read`, never again after end of file; without a started device it calls nothing. */
  lemma PullFlow(d: Device, bytes: seq<byte>)
    ensures var b := Pull(d, bytes).device.backend;
            FlowOf(b.calls) ==
            if d.hasHandle && d.state == STARTED then AfterReads(FlowOf(d.backend.calls), EndSeen(b))
            else FlowOf(d.backend.calls)
  {
    if d.hasHandle && d.state == STARTED {
      ReadsFlow(d, bytes);
    } else {
      PullTurn(d, bytes);
    }
  }

  /** One read more at the front makes no difference to the phase. */
  lemma FlowsOn(d: Device, d': Device, d'': Device)
    requires FlowOf(d'.backend.calls) == Flow(FlowOf(d.backend.calls), CallRead(false))
    requires FlowOf(d''.backend.calls) == AfterReads(FlowOf(d'.backend.calls), EndSeen(d''.backend))
    ensures FlowOf(d''.backend.calls) == AfterReads(FlowOf(d.backend.calls), EndSeen(d''.backend))
  {
  }

  /** End of file uses the script up; otherwise its ending is still to come. */
  lemma {:induction false} PullSeesEnd(d: Device, bytes: seq<byte>)
    requires d.hasHandle && d.state == STARTED && |bytes| < THRESHOLD
    ensures var p := Pull(d, bytes); var b, b' := d.backend, p.device.backend;
            && (EndSeen(b') ==> b.ending.EndOfFrame? && b'.ending == EndOfFrame([]) && b'.chunks == [])
            && (EndSeen(b') ==> p.stop == AtEnd || (p.stop == Full && b.ending.tail != []))
            && (!EndSeen(b') ==> b'.ending == b.ending && p.stop != AtEnd)
    decreases |d.backend.chunks|
  {
    var r := Read(d);
    ReadFlow(d);
    if r.status == GOOD && |bytes + r.data| < THRESHOLD {
      PullSeesEnd(r.device, bytes + r.data);
    }
  }

  /** A started device is read until its script is used up before a failure is met. */
  lemma {:induction false} PullBreaksLast(d: Device, bytes: seq<byte>)
    requires d.hasHandle && d.state == STARTED && d.backend.started
    ensures var p := Pull(d, bytes);
            p.stop == Broken ==> p.device.backend.ending.Failure? && p.device.backend.Remaining() == []
    decreases |d.backend.chunks|
  {
    var r := Read(d);
    if r.status == GOOD && |bytes + r.data| < THRESHOLD {
      PullBreaksLast(r.device, bytes + r.data);
    } else {
      assert d.backend.chunks == [] ==> Flatten(d.backend.chunks) == [];
    }
  }

  /** Which ending stopped the read loop. */
  lemma {:induction false} PullEnding(d: Device, bytes: seq<byte>)
    ensures var p := Pull(d, bytes);
            && (p.device.backend.ending.EndOfFrame? <==> d.backend.ending.EndOfFrame?)
            && (p.stop == AtEnd ==> d.backend.ending.EndOfFrame?)
            && (d.hasHandle && d.state == STARTED && d.backend.started && d.backend.ending.EndOfFrame? ==>
                  p.stop != Broken)
            && (!d.backend.started ==> p.stop == Broken || |bytes| >= THRESHOLD)
    decreases |d.backend.chunks|
  {
    var r := Read(d);
    if r.status == GOOD && |bytes + r.data| < THRESHOLD {
      PullEnding(r.device, bytes + r.data);
    }
  }

  /** The device before, against the outcome `p` of a read loop that started with nothing. */
  ghost predicate Fetched(d: Device, p: Pulled) {
    && p.device == d.(backend := p.device.backend)
    && Total(p.device.backend) == Total(d.backend)
    && p.device.backend.delivered == d.backend.delivered + p.bytes
    && (p.stop == Full ==>
          THRESHOLD <= |p.bytes| < THRESHOLD + READ_MAX && Budget(p.device.backend) < Budget(d.backend))
    && (p.stop != Full ==> |p.bytes| < THRESHOLD)
    && (p.stop == AtEnd ==> p.device.backend.Remaining() == [])
  }

  /** The state `next_packet` leaves behind when the read loop ended in `p`. */
  function Sent(s: Server, p: Pulled): Server {
    var packet := Message(s.device.name, Some(p.bytes), None);
    var written := s.(device := p.device, bytes := p.bytes, response := packet, sent := s.sent + [packet],
                      outstanding := s.outstanding + 1, lateWrite := s.lateWrite || s.statuses != []);
    match p.stop
    case Full => written
    case AtEnd => Finish(written, OK)
    case Broken =>
      Finish(s.(device := p.device, bytes := p.bytes, response := Message(s.device.name, None, None)), ABORTED)
  }

  lemma PullFetches(d: Device)
    ensures Fetched(d, Pull(d, []))
  {
    PullKeepsTotal(d, []);
    PullDelivers(d, []);
    PullBounds(d, []);
    assert Pull(d, []).bytes[0..] == Pull(d, []).bytes;
  }

  lemma NextPacketSends(s: Server)
    ensures Fetched(s.device, Pull(s.device, []))
    ensures NextPacket(s) == Sent(s, Pull(s.device, []))
  {
    PullFetches(s.device);
  }
}
