/** `CScanResponseReactor` itself: fields updated in place by the constructor and by gRPC's callbacks. */
module ScanReactor {
  import opened Bytes
  import opened SaneApi
  import DeviceModel
  import opened SaneDevice
  import M = ServerModel

  class CScanResponseReactor {
    const device: CSaneDevice
    const buffer: Buffer
    var response: M.Message
    var byteData: seq<byte>
    var finished: bool
    // gRPC's side of the RPC
    var sent: seq<M.Message>
    var outstanding: nat
    var statuses: seq<M.Code>
    var lateWrite: bool
    var gone: bool

    ghost predicate Valid()
      reads this, device, device.port
    {
      device.Valid() && buffer.data.Length == READ_MAX
    }

    ghost function View(): M.Server
      reads this, device, device.port
    {
      M.Server(device.View(), finished, byteData, response, sent, outstanding, statuses, lateWrite, gone)
    }

    constructor (device: CSaneDevice)
      requires device.Valid()
      modifies device, device.port
      ensures Valid() && this.device == device && fresh(buffer) && fresh(buffer.data)
      ensures View() == M.StartScan(old(device.View()))
    {
      this.device := device;
      var b := new Buffer();
      this.buffer := b;
      response, byteData := M.Message("", None, None), [];
      finished, sent, outstanding, statuses, lateWrite, gone := false, [], 0, [], false, false;
      new;
      StartScan();
    }

    method StartScan()
      requires Valid() && !finished && sent == [] && outstanding == 0 && statuses == [] && !lateWrite && !gone
      modifies this, device, device.port
      ensures Valid() && View() == M.StartScan(old(device.View()))
    {
      ResetResponse();
      var status := device.Open();
      if status != GOOD {
        Finish(M.CANCELLED_CALL);
        return;
      }
      status := device.Start();
      if status != GOOD {
        Finish(M.CANCELLED_CALL);
        return;
      }
      status := device.RefreshParameters();
      if status != GOOD {
        Finish(M.CANCELLED_CALL);
        return;
      }
      response := response.(parameters := Some(device.port.parameters));
      StartWrite();
    }

    method ResetResponse()
      requires Valid()
      modifies this
      ensures Valid() && View() == M.Reset(old(View()))
    {
      response := M.Message("", None, None);
      byteData := [];
      response := response.(scannerName := device.name);
    }

    method WriteResponse()
      requires Valid()
      modifies this
      ensures Valid() && View() == M.WriteResponse(old(View()))
    {
      response := response.(data := Some(byteData));
      StartWrite();
    }

    /** The base class's `StartWrite`. */
    method StartWrite()
      requires Valid()
      modifies this
      ensures Valid() && View() == M.StartWrite(old(View()))
    {
      lateWrite := lateWrite || statuses != [];
      sent := sent + [response];
      outstanding := outstanding + 1;
    }

    method Finish(code: M.Code)
      requires Valid()
      modifies this
      ensures Valid() && View() == M.Finish(old(View()), code)
    {
      if finished {
        return;
      }
      finished := true;
      statuses := statuses + [code];
    }

    /** The first half of a turn of the read loop: read, and keep what came. */
    method ReadMore() returns (status: Status)
      requires Valid()
      modifies this, device, device.port, buffer, buffer.data
      ensures var r := DeviceModel.Read(old(View()).device);
              && status == r.status
              && View() == old(View()).(device := r.device, bytes :=
                   if status == GOOD || status == EOF then old(byteData) + r.data else old(byteData))
      ensures Valid()
    {
      ghost var r := DeviceModel.Read(device.View());
      status := device.Read(buffer);
      if (status == GOOD || status == EOF) && buffer.readLen > 0 {
        assert buffer.data[..buffer.readLen] == r.data;
        byteData := byteData + buffer.data[..buffer.readLen];
      } else if status == GOOD || status == EOF {
        assert r.data == [] && byteData + r.data == byteData;
      }
    }

    method NextPacket()
      requires Valid()
      modifies this, device, device.port, buffer, buffer.data
      ensures Valid() && View() == M.NextPacket(old(View()))
    {
      ghost var was := View();
      ghost var pulled := M.Pull(was.device, []);
      ResetResponse();
      while true
        invariant Valid()
        invariant View() == M.Reset(was).(device := View().device, bytes := byteData)
        invariant M.Pull(View().device, byteData) == pulled
        decreases |View().device.backend.chunks|
      {
        M.PullTurn(View().device, byteData);
        var status := ReadMore();
        if |byteData| >= M.THRESHOLD {
          PacketEnds(was, pulled, M.Full);
          WriteResponse();
          return;
        }
        if status != GOOD {
          if status == EOF {
            PacketEnds(was, pulled, M.AtEnd);
            WriteResponse();
            break;
          }
          PacketEnds(was, pulled, M.Broken);
          Finish(M.ABORTED);
          return;
        }
      }
      Finish(M.OK);
    }

    /** What is left to do once the read loop has stopped. */
    lemma PacketEnds(was: M.Server, pulled: M.Pulled, stop: M.Stop)
      requires pulled == M.Pull(was.device, []) && pulled.stop == stop
      ensures var loaded := M.Reset(was).(device := pulled.device, bytes := pulled.bytes);
              M.NextPacket(was) ==
              match stop
              case Full => M.WriteResponse(loaded)
              case AtEnd => M.Finish(M.WriteResponse(loaded), M.OK)
              case Broken => M.Finish(loaded, M.ABORTED)
    {
    }

    /** gRPC takes the completed write off its books, then calls back. */
    method OnWriteDone(ok: bool)
      requires Valid() && M.Enabled(View(), M.WriteDone(ok))
      modifies this, device, device.port, buffer, buffer.data
      ensures Valid() && View() == M.Step(old(View()), M.WriteDone(ok))
    {
      outstanding := outstanding - 1;
      if ok && !finished {
        NextPacket();
      } else if !ok && !finished {
        Finish(M.UNKNOWN);
      }
    }

    method OnCancel()
      requires Valid() && M.Enabled(View(), M.OnCancel)
      modifies device, device.port
      ensures Valid() && View() == M.Step(old(View()), M.OnCancel)
    {
      device.Cancel();
    }

    method OnDone()
      requires Valid() && M.Enabled(View(), M.OnDone)
      modifies this, device, device.port
      ensures Valid() && View() == M.Step(old(View()), M.OnDone)
    {
      device.Close();
      gone := true;
    }
  }
}
