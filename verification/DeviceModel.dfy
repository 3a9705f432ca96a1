/** `CSaneDevice` as a state machine on values: what each operation does to state, handle and libsane. */
module DeviceModel {
  import opened SaneApi

  datatype State = OPENED | CLOSED | STARTED | CANCELLING

  /** A device as a value: its state, whether the handle is non-null, and libsane's side. */
  datatype Device = Device(name: string, state: State, hasHandle: bool, backend: Backend)

  datatype Answer = Answer(device: Device, status: Status)

  function Open(d: Device): Answer {
    var ok := d.backend.openStatus == GOOD;
    Answer(
      d.(state := if ok then OPENED else d.state, hasHandle := ok, backend := SaneOpen(d.backend)),
      d.backend.openStatus)
  }

  function Start(d: Device): Answer {
    if !d.hasHandle || d.state != OPENED then
      Answer(d, INVAL)
    else
      var ok := d.backend.startStatus == GOOD;
      Answer(
        d.(state := if ok then STARTED else d.state, backend := SaneStart(d.backend)),
        d.backend.startStatus)
  }

  function RefreshParameters(d: Device): Answer {
    if !d.hasHandle then
      Answer(d, INVAL)
    else
      Answer(d.(backend := d.backend.Log(CallGetParameters)), d.backend.parametersStatus)
  }

  datatype DeviceRead = DeviceRead(device: Device, status: Status, data: Chunk)

  function Read(d: Device): (r: DeviceRead)
    ensures r.device.name == d.name && r.device.state == d.state && r.device.hasHandle == d.hasHandle
    ensures r.status == GOOD ==> |r.device.backend.chunks| < |d.backend.chunks|
  {
    if !d.hasHandle || d.state != STARTED then
      DeviceRead(d, INVAL, [])
    else
      var r := SaneRead(d.backend);
      DeviceRead(d.(backend := r.backend), r.status, r.data)
  }

  /** The state is put back after the call, so a cancelled device still counts as started. */
  function Cancel(d: Device): Device {
    d.(backend := if d.hasHandle then SaneCancel(d.backend) else d.backend.Log(CallCancelNull))
  }

  function Close(d: Device): Device {
    if !d.hasHandle then d
    else d.(state := CLOSED, hasHandle := false, backend := SaneClose(SaneCancel(d.backend)))
  }

  /** A device nobody has opened yet. */
  ghost predicate Fresh(d: Device) {
    && d.state == CLOSED && !d.hasHandle
    && !d.backend.open && !d.backend.started && !d.backend.cancelled
    && d.backend.delivered == [] && d.backend.calls == []
  }

  /** What every operation of the wrapper keeps: the handle is null exactly when the state is CLOSED. */
  ghost predicate Consistent(d: Device) {
    && (d.hasHandle <==> d.state != CLOSED)
    && d.state != CANCELLING
  }
}
