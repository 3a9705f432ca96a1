/** Scans of a device that fills the read buffer until its last chunk, as the mock does: the exact packet sizes. */
module FilledRuns {
  import opened Bytes
  import opened SaneApi
  import opened DeviceModel
  import opened ServerModel
  import opened ServerRuns
  import opened MockHandle

  ghost predicate Filling(b: Backend) {
    AllFullButLast(b.chunks) && b.ending == EndOfFrame([])
  }

  lemma {:induction false} PullIsExact(d: Device, bytes: seq<byte>)
    requires Filling(d.backend) && |bytes| < THRESHOLD && (|bytes| % READ_MAX == 0 || d.backend.chunks == [])
    ensures Filling(Pull(d, bytes).device.backend)
    ensures Pull(d, bytes).stop == Full ==> |Pull(d, bytes).bytes| == THRESHOLD
    decreases |d.backend.chunks|
  {
    var r := Read(d);
    if r.status == GOOD && |bytes + r.data| < THRESHOLD {
      PullIsExact(r.device, bytes + r.data);
    }
  }

  /** Every data packet holds exactly the threshold, but for the one that ends the scan. */
  ghost predicate Exact(s: Server) {
    && Filling(s.device.backend)
    && (forall i :: 1 <= i < |s.sent| - (if EndedWith(s, OK) then 1 else 0) ==>
          s.sent[i].data.Some? && |s.sent[i].data.value| == 10240)
  }

  lemma SendingIsExact(s: Server, p: Pulled)
    requires Exact(s) && s.statuses == [] && !s.finished && Filling(p.device.backend)
    requires p.stop == Full ==> |p.bytes| == 10240
    ensures Exact(Sent(s, p))
  {
    assert p.stop != Broken ==> Sent(s, p).sent == s.sent + [Message(s.device.name, Some(p.bytes), None)];
  }

  lemma ExactStep(s: Server, e: Event)
    requires Disciplined(s) && Exact(s)
    ensures Exact(Step(s, e))
  {
    if Enabled(s, e) && e == WriteDone(true) && !s.finished {
      var completed := s.(outstanding := 0);
      NextPacketSends(completed);
      PullIsExact(s.device, []);
      SendingIsExact(completed, Pull(s.device, []));
      assert Step(s, e) == NextPacket(completed);
    } else {
      assert Step(s, e).sent == s.sent;
    }
  }

  lemma {:induction false} RunsAreExact(d: Device, es: seq<Event>)
    requires Fresh(d) && Filling(d.backend)
    ensures Exact(After(d, es))
  {
    if es != [] {
      var before := es[..|es| - 1];
      RunsAreExact(d, before);
      EveryRunIsSound(d, before);
      ExactStep(After(d, before), es[|es| - 1]);
    }
  }

  lemma {:induction false} PayloadLength(messages: seq<Message>)
    requires forall i :: 1 <= i < |messages| ==> messages[i].data.Some? && |messages[i].data.value| == 10240
    requires |messages| > 0 ==> messages[0].data.None?
    ensures |messages| > 0 ==> |Payload(messages)| == (|messages| - 1) * 10240
  {
    if |messages| > 1 {
      PayloadLength(messages[..|messages| - 1]);
    }
  }

  lemma CountPackets(s: Server, d: Device, n: nat)
    requires Framed(s, d) && Exact(s) && EndedWith(s, OK) && |Payload(s.sent)| == n
    ensures |s.sent| == 1 + n / 10240 + 1 && |s.sent[|s.sent| - 1].data.value| == n % 10240
  {
    PayloadLength(s.sent[..|s.sent| - 1]);
  }

  /** An undisturbed scan of N bytes takes N / 10240 full packets and a last one of N mod 10240 bytes. */
  lemma PacketCount(d: Device, es: seq<Event>)
    requires Fresh(d) && Filling(d.backend) && Undisturbed(es) && After(d, es).gone && Verdict(d) == OK
    ensures var sent, n := After(d, es).sent, |d.backend.Remaining()|;
            && |sent| == 1 + n / 10240 + 1
            && (forall i :: 1 <= i < |sent| - 1 ==> IsData(sent[i], d.name) && |sent[i].data.value| == 10240)
            && IsData(sent[|sent| - 1], d.name) && |sent[|sent| - 1].data.value| == n % 10240
  {
    CompleteRunConserves(d, es);
    EveryRunIsSound(d, es);
    RunsAreExact(d, es);
    CountPackets(After(d, es), d, |d.backend.Remaining()|);
  }

  /** In particular for the mock with any number of bytes. */
  lemma MockPacketCount(d: Device, n: nat, es: seq<Event>)
    requires Fresh(d) && Verdict(d) == OK && Undisturbed(es) && After(d, es).gone
    requires d.backend.chunks == MockChunks(n) && d.backend.ending == EndOfFrame([])
    ensures Payload(After(d, es).sent) == Ones(n) && |After(d, es).sent| == n / 10240 + 2
  {
    CompleteRunConserves(d, es);
    PacketCount(d, es);
  }
}
