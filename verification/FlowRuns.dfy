/**
 The calls a scan makes to libsane, against the code flow of section 4.4 of the SANE Standard.  They follow
 it on every run except three kinds, which are given exactly: a write that completes successfully after a
 cancellation while the reactor is unfinished, one that completes after the scan's last bytes came with the end of
 file and filled a packet, and a cancellation of a device that failed to open.
 */
module FlowRuns {
  import opened SaneApi
  import opened DeviceModel
  import opened ServerModel
  import opened ServerRuns

  /** The device's last bytes come with the end of file, and the packets hold everything up to them. */
  predicate EndSent(d: Device, s: Server) {
    && d.backend.ending.EndOfFrame? && d.backend.ending.tail != []
    && Payload(s.sent) == d.backend.Remaining()
  }

  /** Whether delivering `e` after the run `es` makes the reactor leave the code flow. */
  predicate Misstep(d: Device, es: seq<Event>, e: Event) {
    || (e == OnCancel && d.backend.openStatus != GOOD)
    || (e == WriteDone(true) && !After(d, es).finished && (OnCancel in es || EndSent(d, After(d, es))))
  }

  predicate Misused(d: Device, es: seq<Event>) {
    es != [] && (Misused(d, es[..|es| - 1]) || Misstep(d, es[..|es| - 1], es[|es| - 1]))
  }

  // ---- The end of file ----

  /** The script's ending is still to come, or it was the end of file and nothing is left. */
  ghost predicate EndingKept(d: Device, b: Backend) {
    || b.ending == d.backend.ending
    || (d.backend.ending.EndOfFrame? && b.ending == EndOfFrame([]) && b.chunks == [])
  }

  /** The last bytes have come with the end of file. */
  predicate TailTaken(d: Device, b: Backend) {
    d.backend.ending.EndOfFrame? && d.backend.ending.tail != [] && b.ending == EndOfFrame([])
  }

  lemma EndingKeptByPull(d: Device, s: Server)
    requires EndingKept(d, s.device.backend) && s.device.hasHandle && s.device.state == STARTED
    ensures EndingKept(d, Pull(s.device, []).device.backend)
  {
    PullSeesEnd(s.device, []);
  }

  lemma EndingKeptByStep(s: Server, d: Device, e: Event)
    requires Disciplined(s) && HandleMatchesState(s) && EndingKept(d, s.device.backend)
    ensures EndingKept(d, Step(s, e).device.backend)
  {
    if Enabled(s, e) && e == WriteDone(true) && !s.finished {
      var completed := s.(outstanding := 0);
      NextPacketSends(completed);
      EndingKeptByPull(d, s);
      assert Step(s, e) == Sent(completed, Pull(s.device, []));
    }
  }

  /** What gRPC can tell from the packets is what the device knows. */
  lemma EndSentIsTailTaken(s: Server, d: Device)
    requires Fresh(d) && Conserving(s, d) && EndingKept(d, s.device.backend) && !EndedWith(s, ABORTED)
    ensures EndSent(d, s) <==> TailTaken(d, s.device.backend)
  {
    var b := s.device.backend;
    assert Total(d.backend) == d.backend.Remaining();
    assert Payload(s.sent) == b.delivered && b.delivered + b.Remaining() == d.backend.Remaining();
    assert b.ending.EndOfFrame? ==> |b.Remaining()| == |Flatten(b.chunks)| + |b.ending.tail|;
    assert Payload(s.sent) == d.backend.Remaining() <==> |b.Remaining()| == 0;
  }

  // ---- The phases ----

  /** The phase a reactor's device is in, from what gRPC has done so far. */
  function Expected(s: Server, d: Device, stopped: bool): Phase {
    if s.gone || s.device.backend.openStatus != GOOD then Shut
    else if stopped then Stopped
    else if s.device.backend.startStatus != GOOD then Idle
    else if EndedWith(s, OK) || TailTaken(d, s.device.backend) then Ended
    else Scanning
  }

  /** The flags of the mock's handle say the same as the automaton. */
  ghost predicate FlagsAgree(b: Backend, p: Phase) {
    && (b.open <==> p != Shut)
    && (b.started <==> p == Scanning || p == Ended)
    && (b.cancelled <==> p == Stopped)
  }

  /** The handle's flags follow the automaton through every call that it allows, whoever makes it. */
  lemma CallsKeepFlags(b: Backend, p: Phase)
    requires FlagsAgree(b, p)
    ensures p == Shut ==> FlagsAgree(SaneOpen(b), Flow(p, CallOpen(b.openStatus == GOOD)))
    ensures p == Idle || p == Ended || p == Stopped ==>
              FlagsAgree(SaneStart(b), Flow(p, CallStart(b.startStatus == GOOD)))
    ensures p == Scanning ==> FlagsAgree(SaneRead(b).backend, Flow(p, CallRead(SaneRead(b).status == EOF)))
    ensures p != Shut && p != Violated ==> FlagsAgree(SaneCancel(b), Flow(p, CallCancel))
    ensures p == Stopped ==> FlagsAgree(SaneClose(b), Flow(p, CallClose))
  {
  }

  /** What ties device, reactor and automaton together while the flow is kept. */
  ghost predicate Tracks(s: Server, d: Device, stopped: bool) {
    var b := s.device.backend;
    && FlowOf(b.calls) == Expected(s, d, stopped)
    && FlagsAgree(b, Expected(s, d, stopped))
  }

  /** Holds on every run, whether the flow is kept or not: the handle is null iff the state is CLOSED. */
  ghost predicate HandleMatchesState(s: Server) {
    var b := s.device.backend;
    && Consistent(s.device)
    && (s.device.hasHandle <==> b.openStatus == GOOD && !s.gone) && (b.open <==> s.device.hasHandle)
    && (s.device.hasHandle ==> (s.device.state == STARTED <==> b.startStatus == GOOD))
    && (!s.finished ==> b.openStatus == GOOD && b.startStatus == GOOD)
  }

  lemma StartTracks(d: Device)
    requires Fresh(d)
    ensures Tracks(StartScan(d), d, false) && HandleMatchesState(StartScan(d))
    ensures EndingKept(d, StartScan(d).device.backend)
    ensures StartScan(d).device.backend.openStatus == d.backend.openStatus
  {
    var b := d.backend;
    var calls0: seq<Call> := [];
    FlowOfAppend(calls0, CallOpen(b.openStatus == GOOD));
    var calls1 := calls0 + [CallOpen(b.openStatus == GOOD)];
    FlowOfAppend(calls1, CallStart(b.startStatus == GOOD));
    FlowOfAppend(calls1 + [CallStart(b.startStatus == GOOD)], CallGetParameters);
  }

  /** The device and handle after a packet, whose read loop ended in `p`. */
  lemma PacketKeepsHandle(s: Server, p: Pulled)
    requires HandleMatchesState(s) && !s.finished && p == Pull(s.device, [])
    ensures HandleMatchesState(Sent(s, p)) && Sent(s, p).device == p.device
    ensures p.device.backend.openStatus == s.device.backend.openStatus
    ensures p.device.backend.startStatus == s.device.backend.startStatus
    ensures p.device.backend.started == s.device.backend.started && p.device.backend.open == s.device.backend.open
    ensures p.device.backend.cancelled == s.device.backend.cancelled
  {
    PullFetches(s.device);
    PullKeepsFlags(s.device, []);
  }

  /** Whether the packet's reads met the end of file shows in the state it leaves. */
  lemma PacketEnds(s: Server, d: Device, p: Pulled)
    requires HandleMatchesState(s) && !s.finished && !s.gone && s.statuses == [] && p == Pull(s.device, [])
    requires EndingKept(d, s.device.backend) && !TailTaken(d, s.device.backend)
    ensures EndSeen(p.device.backend) <==> EndedWith(Sent(s, p), OK) || TailTaken(d, p.device.backend)
  {
    PullSeesEnd(s.device, []);
  }

  lemma PacketTracks(s: Server, d: Device, stopped: bool)
    requires HandleMatchesState(s) && !s.finished && !s.gone && s.statuses == [] && EndingKept(d, s.device.backend)
    ensures var s' := NextPacket(s);
            && Tracked(s, s', d, stopped, stopped, stopped || TailTaken(d, s.device.backend))
  {
    var p := Pull(s.device, []);
    NextPacketSends(s);
    PacketKeepsHandle(s, p);
    PullFlow(s.device, []);
    if !TailTaken(d, s.device.backend) {
      PacketEnds(s, d, p);
    }
    PacketMoves(s, Sent(s, p), d, stopped);
  }

  /** The phases before and after the reads of a packet. */
  lemma PacketMoves(s: Server, s': Server, d: Device, stopped: bool)
    requires HandleMatchesState(s) && !s.finished && !s.gone && s.statuses == []
    requires HandleMatchesState(s') && s'.gone == s.gone
    requires var b, b' := s.device.backend, s'.device.backend;
             && b'.openStatus == b.openStatus && b'.startStatus == b.startStatus
             && b'.started == b.started && b'.open == b.open && b'.cancelled == b.cancelled
             && FlowOf(b'.calls) == AfterReads(FlowOf(b.calls), EndSeen(b'))
             && (!TailTaken(d, b) ==> (EndSeen(b') <==> EndedWith(s', OK) || TailTaken(d, b')))
    ensures Tracked(s, s', d, stopped, stopped, stopped || TailTaken(d, s.device.backend))
  {
  }

  /** One event, which `wrong` marks as a misstep, moves the reactor from `s` to `s'`. */
  ghost predicate Tracked(s: Server, s': Server, d: Device, stopped: bool, stopped': bool, wrong: bool) {
    var calls, calls' := s.device.backend.calls, s'.device.backend.calls;
    && HandleMatchesState(s') && s'.device.backend.openStatus == s.device.backend.openStatus
    && (Tracks(s, d, stopped) && !wrong ==> Tracks(s', d, stopped'))
    && (Tracks(s, d, stopped) && wrong ==> FlowOf(calls') == Violated)
    && (FlowOf(calls) == Violated ==> FlowOf(calls') == Violated)
  }

  lemma CancelTracks(s: Server, d: Device, stopped: bool)
    requires HandleMatchesState(s) && !s.gone
    ensures Tracked(s, Step(s, OnCancel), d, stopped, true, s.device.backend.openStatus != GOOD)
  {
    var call := if s.device.hasHandle then CallCancel else CallCancelNull;
    FlowOfAppend(s.device.backend.calls, call);
    CancelMoves(s, d, stopped, call, Step(s, OnCancel));
  }

  /** A cancellation changes nothing of a reactor but the flags and the calls of its device. */
  lemma CancelMoves(s: Server, d: Device, stopped: bool, call: Call, s': Server)
    requires HandleMatchesState(s) && !s.gone && s' == Step(s, OnCancel)
    requires call == if s.device.hasHandle then CallCancel else CallCancelNull
    requires FlowOf(s.device.backend.calls + [call]) == Flow(FlowOf(s.device.backend.calls), call)
    ensures Tracked(s, s', d, stopped, true, s.device.backend.openStatus != GOOD)
  {
    CancelChanges(s, call, s');
    var p := FlowOf(s.device.backend.calls);
    assert FlowOf(s'.device.backend.calls) == Flow(p, call);
  }

  lemma CancelChanges(s: Server, call: Call, s': Server)
    requires HandleMatchesState(s) && !s.gone && s' == Step(s, OnCancel)
    requires call == if s.device.hasHandle then CallCancel else CallCancelNull
    ensures HandleMatchesState(s') && s'.gone == s.gone && s'.statuses == s.statuses
    ensures s'.device.backend == if s.device.hasHandle
              then s.device.backend.(calls := s.device.backend.calls + [call], started := false, cancelled := true)
              else s.device.backend.(calls := s.device.backend.calls + [call])
  {
  }

  lemma DoneTracks(s: Server, d: Device, stopped: bool)
    requires HandleMatchesState(s) && Enabled(s, OnDone) && s.finished
    ensures Tracked(s, Step(s, OnDone), d, stopped, stopped, false)
  {
    var calls := s.device.backend.calls;
    FlowOfAppend(calls, CallCancel);
    FlowOfAppend(calls + [CallCancel], CallClose);
    DoneMoves(s, d, stopped, Step(s, OnDone));
  }

  lemma DoneMoves(s: Server, d: Device, stopped: bool, s': Server)
    requires HandleMatchesState(s) && Enabled(s, OnDone) && s.finished && s' == Step(s, OnDone)
    requires FlowOf(s.device.backend.calls + [CallCancel] + [CallClose]) ==
             Flow(Flow(FlowOf(s.device.backend.calls), CallCancel), CallClose)
    ensures Tracked(s, s', d, stopped, stopped, false)
  {
    var calls := s.device.backend.calls;
    assert s'.device.backend.calls == if s.device.hasHandle then calls + [CallCancel] + [CallClose] else calls;
    assert HandleMatchesState(s');
  }

  lemma FailedWriteTracks(s: Server, d: Device, stopped: bool, e: Event)
    requires Disciplined(s) && HandleMatchesState(s) && Enabled(s, e) && e.WriteDone? && (e.ok ==> s.finished)
    ensures Tracked(s, Step(s, e), d, stopped, stopped, false)
  {
    assert Step(s, e).device == s.device && Step(s, e).gone == s.gone;
    assert EndedWith(Step(s, e), OK) == EndedWith(s, OK);
  }

  lemma CompletedWriteTracks(s: Server, d: Device, stopped: bool)
    requires Disciplined(s) && HandleMatchesState(s) && Enabled(s, WriteDone(true)) && !s.finished
    requires EndingKept(d, s.device.backend)
    ensures Tracked(s, Step(s, WriteDone(true)), d, stopped, stopped, stopped || TailTaken(d, s.device.backend))
  {
    var completed := s.(outstanding := 0);
    PacketTracks(completed, d, stopped);
    assert Step(s, WriteDone(true)) == NextPacket(completed);
    assert Tracks(completed, d, stopped) == Tracks(s, d, stopped);
  }

  lemma StepTracks(s: Server, d: Device, stopped: bool, e: Event)
    requires Fresh(d) && Sound(s, d) && HandleMatchesState(s) && EndingKept(d, s.device.backend) && Enabled(s, e)
    ensures Tracked(s, Step(s, e), d, stopped, stopped || e == OnCancel,
                    (e == OnCancel && s.device.backend.openStatus != GOOD) ||
                    (e == WriteDone(true) && !s.finished && (stopped || EndSent(d, s))))
  {
    match e
    case WriteDone(ok) =>
      if ok && !s.finished {
        CompletedWriteTracks(s, d, stopped);
        EndSentIsTailTaken(s, d);
      } else {
        FailedWriteTracks(s, d, stopped, e);
      }
    case OnCancel => CancelTracks(s, d, stopped);
    case OnDone => DoneTracks(s, d, stopped);
  }

  /** The device follows the run `es`, or has left the code flow by a misstep in it. */
  ghost predicate Follows(d: Device, es: seq<Event>, s: Server) {
    && HandleMatchesState(s) && s.device.backend.openStatus == d.backend.openStatus
    && EndingKept(d, s.device.backend)
    && (!Misused(d, es) ==> Tracks(s, d, OnCancel in es))
    && (Misused(d, es) ==> FlowOf(s.device.backend.calls) == Violated)
  }

  lemma StepFollows(d: Device, es: seq<Event>, e: Event, s: Server)
    requires Fresh(d) && s == After(d, es) && Sound(s, d) && Follows(d, es, s) && Enabled(s, e)
    ensures Follows(d, es + [e], Step(s, e))
  {
    StepTracks(s, d, OnCancel in es, e);
    EndingKeptByStep(s, d, e);
    MisusedLast(d, es, e);
  }

  lemma MisusedLast(d: Device, es: seq<Event>, e: Event)
    ensures Misused(d, es + [e]) <==> Misused(d, es) || Misstep(d, es, e)
  {
    assert (es + [e])[..|es|] == es;
  }

  lemma {:induction false} RunTracks(d: Device, es: seq<Event>)
    requires Fresh(d) && IsRun(d, es)
    ensures Follows(d, es, After(d, es))
  {
    if es == [] {
      StartTracks(d);
    } else {
      var before, e := es[..|es| - 1], es[|es| - 1];
      assert es == before + [e];
      RunTracks(d, before);
      EveryRunIsSound(d, before);
      StepFollows(d, before, e, After(d, before));
    }
  }

  /**
   The flow is kept exactly on the runs without such an event.  While it is kept the handle's flags say the same as
   the automaton, so the mock's assertions cannot fire: a read meets a started handle, a close a cancelled one.
   */
  lemma FlowKeptUnlessMisused(d: Device, es: seq<Event>)
    requires Fresh(d) && IsRun(d, es)
    ensures FlowOf(After(d, es).device.backend.calls) != Violated <==> !Misused(d, es)
    ensures !Misused(d, es) ==>
              FlagsAgree(After(d, es).device.backend, FlowOf(After(d, es).device.backend.calls))
  {
    RunTracks(d, es);
  }

  /** However the run went, the device is closed and its handle released once gRPC has said goodbye. */
  lemma DeviceClosedWhenGone(d: Device, es: seq<Event>)
    requires Fresh(d) && IsRun(d, es) && After(d, es).gone
    ensures var s := After(d, es);
            s.device.state == CLOSED && !s.device.hasHandle && !s.device.backend.open
    ensures !Misused(d, es) ==> FlowOf(After(d, es).device.backend.calls) == Shut
  {
    RunTracks(d, es);
  }

  /** The first exception happens: the last write completes after the cancellation, and a read follows. */
  lemma ReadAfterCancelHappens(name: string, parameters: Parameters)
    ensures var d, es := EmptyPage(name, parameters, GOOD), [OnCancel, WriteDone(true)];
            Fresh(d) && IsRun(d, es) && FlowOf(After(d, es).device.backend.calls) == Violated
  {
    var d, es := EmptyPage(name, parameters, GOOD), [OnCancel, WriteDone(true)];
    ExtendRun(d, [], OnCancel);
    ExtendRun(d, [OnCancel], WriteDone(true));
    assert [] + [OnCancel] == [OnCancel] && [OnCancel] + [WriteDone(true)] == es;
    assert es[..1] == [OnCancel];
    assert Misstep(d, es[..1], es[1]);
    RunTracks(d, es);
  }

  /** So does the second: the device is busy, and the client cancels before gRPC says goodbye. */
  lemma CancelOfUnopenedHappens(name: string, parameters: Parameters)
    ensures var d, es := EmptyPage(name, parameters, DEVICE_BUSY), [OnCancel];
            Fresh(d) && IsRun(d, es) && FlowOf(After(d, es).device.backend.calls) == Violated
  {
    var d, es := EmptyPage(name, parameters, DEVICE_BUSY), [OnCancel];
    ExtendRun(d, [], OnCancel);
    assert [] + [OnCancel] == es && es[..0] == [];
    assert Misstep(d, es[..0], es[0]);
    RunTracks(d, es);
  }
}
