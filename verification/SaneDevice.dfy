/** The classes that update a device in place: the read buffer, a libsane handle and `CSaneDevice`. */
module SaneDevice {
  import opened Bytes
  import opened SaneApi
  import opened DeviceModel

  /** `CSaneDeviceBuffer<2048>`. */
  class Buffer {
    const data: array<byte>
    var readLen: nat

    constructor ()
      ensures data.Length == READ_MAX && readLen == 0 && fresh(data)
    {
      data := new byte[READ_MAX](_ => 0);
      readLen := 0;
    }

    /** Copies bytes to the front and notes how many. */
    method Fill(bytes: seq<byte>)
      requires |bytes| <= data.Length
      modifies this, data
      ensures readLen == |bytes| && data[..readLen] == bytes
    {
      forall i | 0 <= i < |bytes| {
        data[i] := bytes[i];
      }
      readLen := |bytes|;
    }
  }

  /** One handle of libsane. */
  class Handle {
    const openStatus: Status
    const startStatus: Status
    const parametersStatus: Status
    const parameters: Parameters
    var open: bool
    var started: bool
    var cancelled: bool
    var chunks: seq<Chunk>
    var ending: Ending
    ghost var delivered: seq<byte>
    ghost var calls: seq<Call>

    constructor (openStatus: Status, startStatus: Status, parametersStatus: Status, parameters: Parameters,
                 chunks: seq<Chunk>, ending: Ending)
      ensures View() == Backend(openStatus, startStatus, parametersStatus, parameters,
                                false, false, false, chunks, ending, [], [])
    {
      this.openStatus, this.startStatus, this.parametersStatus := openStatus, startStatus, parametersStatus;
      this.parameters := parameters;
      this.open, this.started, this.cancelled := false, false, false;
      this.chunks, this.ending, this.delivered, this.calls := chunks, ending, [], [];
    }

    ghost function View(): Backend
      reads this
    {
      Backend(openStatus, startStatus, parametersStatus, parameters,
              open, started, cancelled, chunks, ending, delivered, calls)
    }

    method SaneOpen() returns (status: Status)
      modifies this
      ensures View() == SaneApi.SaneOpen(old(View())) && status == openStatus
    {
      calls := calls + [CallOpen(openStatus == GOOD)];
      if openStatus == GOOD {
        open := true;
      }
      status := openStatus;
    }

    method SaneStart() returns (status: Status)
      modifies this
      ensures View() == SaneApi.SaneStart(old(View())) && status == startStatus
    {
      calls := calls + [CallStart(startStatus == GOOD)];
      if startStatus == GOOD {
        started := true;
        cancelled := false;
      }
      status := startStatus;
    }

    method SaneGetParameters() returns (status: Status)
      modifies this
      ensures View() == old(View()).Log(CallGetParameters) && status == parametersStatus
    {
      calls := calls + [CallGetParameters];
      status := parametersStatus;
    }

    /** Copies the next chunk to the start of the caller's buffer and sets `readLen`. */
    method SaneRead(buffer: Buffer) returns (status: Status)
      requires buffer.data.Length == READ_MAX
      modifies this, buffer, buffer.data
      ensures var r := SaneApi.SaneRead(old(View()));
              View() == r.backend && status == r.status
              && buffer.readLen == |r.data| <= READ_MAX && buffer.data[..buffer.readLen] == r.data
    {
      var data: Chunk := [];
      if !started {
        status := CANCELLED;
      } else if chunks != [] {
        data, chunks := chunks[0], chunks[1..];
        status := GOOD;
      } else if ending.EndOfFrame? {
        data, ending := ending.tail, EndOfFrame([]);
        status := EOF;
      } else {
        status := ending.status;
      }
      calls, delivered := calls + [CallRead(status == EOF)], delivered + data;
      buffer.Fill(data);
    }

    method SaneCancel()
      modifies this
      ensures View() == SaneApi.SaneCancel(old(View()))
    {
      calls := calls + [CallCancel];
      started, cancelled := false, true;
    }

    method SaneClose()
      modifies this
      ensures View() == SaneApi.SaneClose(old(View()))
    {
      calls := calls + [CallClose];
      open, cancelled := false, false;
    }
  }

  /** `CSaneDevice`.  `port` is the handle that `sane_open` yields for this device's name. */
  class CSaneDevice {
    const name: string
    const port: Handle
    var handle: Handle?
    var state: State

    constructor (name: string, port: Handle)
      ensures Valid() && this.name == name && this.port == port
      ensures View() == Device(name, CLOSED, false, port.View())
    {
      this.name, this.port, this.handle, this.state := name, port, null, CLOSED;
    }

    ghost predicate Valid()
      reads this, port
    {
      handle == null || handle == port
    }

    ghost function View(): Device
      reads this, port
    {
      Device(name, state, handle != null, port.View())
    }

    method Open() returns (status: Status)
      requires Valid()
      modifies this, port
      ensures Valid() && Answer(View(), status) == DeviceModel.Open(old(View()))
    {
      status := port.SaneOpen();
      handle := if status == GOOD then port else null;
      if status == GOOD {
        state := OPENED;
      }
    }

    method Start() returns (status: Status)
      requires Valid()
      modifies this, port
      ensures Valid() && Answer(View(), status) == DeviceModel.Start(old(View()))
    {
      if handle == null || state != OPENED {
        return INVAL;
      }
      status := handle.SaneStart();
      if status == GOOD {
        state := STARTED;
      }
    }

    method RefreshParameters() returns (status: Status)
      requires Valid()
      modifies this, port
      ensures Valid() && Answer(View(), status) == DeviceModel.RefreshParameters(old(View()))
    {
      if handle == null {
        return INVAL;
      }
      status := handle.SaneGetParameters();
    }

    method Read(buffer: Buffer) returns (status: Status)
      requires Valid() && buffer.data.Length == READ_MAX
      modifies this, port, buffer, buffer.data
      ensures var r := DeviceModel.Read(old(View()));
              View() == r.device && status == r.status
              && (status == GOOD || status == EOF ==>
                    buffer.readLen == |r.data| <= READ_MAX && buffer.data[..buffer.readLen] == r.data)
      ensures Valid()
    {
      if handle == null || state != STARTED {
        return INVAL;
      }
      status := handle.SaneRead(buffer);
    }

    method Cancel()
      requires Valid()
      modifies this, port
      ensures Valid() && View() == DeviceModel.Cancel(old(View()))
    {
      var oldState := state;
      state := CANCELLING;
      if handle != null {
        handle.SaneCancel();
      } else {
        SaneCancelNull();
      }
      state := oldState;
    }

    /** `sane_cancel` on a null handle: the mock finds no handle and changes nothing. */
    method SaneCancelNull()
      modifies port
      ensures port.View() == old(port.View()).Log(CallCancelNull)
    {
      port.calls := port.calls + [CallCancelNull];
    }

    method Close()
      requires Valid()
      modifies this, port
      ensures Valid() && View() == DeviceModel.Close(old(View()))
    {
      if handle == null {
        return;
      }
      handle.SaneCancel();
      handle.SaneClose();
      handle := null;
      state := CLOSED;
    }
  }
}
