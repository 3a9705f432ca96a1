/**
 `CSaneDevice` on its own: whatever its caller does, in whatever order, libsane is only asked for what the device's
 state allows.
 */
module WrapperRuns {
  import opened SaneApi
  import opened DeviceModel

  datatype Operation = DoOpen | DoStart | DoRefreshParameters | DoRead | DoCancel | DoClose

  function Perform(d: Device, op: Operation): Device {
    match op
    case DoOpen => Open(d).device
    case DoStart => Start(d).device
    case DoRefreshParameters => RefreshParameters(d).device
    case DoRead => Read(d).device
    case DoCancel => Cancel(d)
    case DoClose => Close(d)
  }

  function Used(d: Device, ops: seq<Operation>): Device {
    if ops == [] then d else Perform(Used(d, ops[..|ops| - 1]), ops[|ops| - 1])
  }

  /** What the calls made so far have left open or started. */
  function Standing(calls: seq<Call>): State {
    if calls == [] then CLOSED else
    var before := Standing(calls[..|calls| - 1]);
    match calls[|calls| - 1]
    case CallOpen(true) => OPENED
    case CallStart(true) => STARTED
    case CallClose => CLOSED
    case _ => before
  }

  /** A call that may follow the calls before it. */
  predicate Proper(before: seq<Call>, call: Call) {
    match call
    case CallOpen(_) => true
    case CallStart(_) => Standing(before) == OPENED
    case CallGetParameters => Standing(before) != CLOSED
    case CallRead(_) => Standing(before) == STARTED
    case CallCancel => Standing(before) != CLOSED
    case CallCancelNull => Standing(before) == CLOSED
    case CallClose => Standing(before) != CLOSED && before[|before| - 1] == CallCancel
  }

  predicate AllProper(calls: seq<Call>) {
    calls == [] || (AllProper(calls[..|calls| - 1]) && Proper(calls[..|calls| - 1], calls[|calls| - 1]))
  }

  lemma Appended(calls: seq<Call>, call: Call)
    ensures AllProper(calls + [call]) <==> AllProper(calls) && Proper(calls, call)
    ensures Standing(calls + [call]) ==
            match call
            case CallOpen(true) => OPENED
            case CallStart(true) => STARTED
            case CallClose => CLOSED
            case _ => Standing(calls)
  {
    assert (calls + [call])[..|calls|] == calls;
  }

  /** The state says what the calls have left, and the handle is null exactly when it is CLOSED. */
  ghost predicate InOrder(d: Device) {
    && AllProper(d.backend.calls) && d.state == Standing(d.backend.calls)
    && Consistent(d) && (d.hasHandle ==> d.backend.openStatus == GOOD)
  }

  lemma PerformKeepsOrder(d: Device, op: Operation)
    requires InOrder(d)
    ensures InOrder(Perform(d, op)) && Perform(d, op).backend.openStatus == d.backend.openStatus
  {
    var b := d.backend;
    match op
    case DoOpen => Appended(b.calls, CallOpen(b.openStatus == GOOD));
    case DoStart => Appended(b.calls, CallStart(b.startStatus == GOOD));
    case DoRefreshParameters => Appended(b.calls, CallGetParameters);
    case DoRead => Appended(b.calls, CallRead(Read(d).status == EOF));
    case DoCancel => Appended(b.calls, if d.hasHandle then CallCancel else CallCancelNull);
    case DoClose => CloseKeepsOrder(d);
  }

  lemma CloseKeepsOrder(d: Device)
    requires InOrder(d)
    ensures InOrder(Close(d)) && Close(d).backend.openStatus == d.backend.openStatus
  {
    var calls := d.backend.calls;
    Appended(calls, CallCancel);
    Appended(calls + [CallCancel], CallClose);
  }

  /**
   Whatever sequence of operations: libsane is started only on an opened handle that is not started, read only on a
   started one, closed only right after a cancellation, and never given a null handle but to cancel it; the handle is
   null exactly in state CLOSED.
   */
  lemma {:induction false} EveryUseIsInOrder(d: Device, ops: seq<Operation>)
    requires Fresh(d)
    ensures InOrder(Used(d, ops))
  {
    if ops != [] {
      EveryUseIsInOrder(d, ops[..|ops| - 1]);
      PerformKeepsOrder(Used(d, ops[..|ops| - 1]), ops[|ops| - 1]);
    }
  }

  /** An operation that the state forbids is refused, and changes nothing. */
  lemma RefusalsChangeNothing(d: Device)
    requires InOrder(d)
    ensures d.state != OPENED ==> Start(d) == Answer(d, INVAL)
    ensures d.state != STARTED ==> Read(d) == DeviceRead(d, INVAL, [])
    ensures d.state == CLOSED ==> RefreshParameters(d) == Answer(d, INVAL) && Close(d) == d
  {
  }

  /** An operation that the state allows reaches libsane, and its answer is the caller's. */
  lemma AllowedUsesReachLibsane(d: Device)
    requires InOrder(d)
    ensures Open(d).device.backend.calls == d.backend.calls + [CallOpen(d.backend.openStatus == GOOD)]
    ensures Open(d).status == d.backend.openStatus
    ensures d.state == OPENED ==>
              Start(d).device.backend.calls == d.backend.calls + [CallStart(d.backend.startStatus == GOOD)]
              && Start(d).status == d.backend.startStatus
    ensures d.state != CLOSED ==>
              RefreshParameters(d).device.backend.calls == d.backend.calls + [CallGetParameters]
              && RefreshParameters(d).status == d.backend.parametersStatus
              && Cancel(d).backend.calls == d.backend.calls + [CallCancel]
              && Close(d).backend.calls == d.backend.calls + [CallCancel, CallClose]
    ensures d.state == STARTED ==>
              Read(d).device.backend.calls == d.backend.calls + [CallRead(Read(d).status == EOF)]
              && Read(d).device.backend == SaneApi.SaneRead(d.backend).backend
              && Read(d).data == SaneApi.SaneRead(d.backend).data
  {
  }
}
