/**
 What holds of the scan reactor on every run: any sequence of write completions, cancellations and the final
 callback, over any device script, with the reactions run one after another.
 */
module ServerRuns {
  import opened Bytes
  import opened SaneApi
  import opened DeviceModel
  import opened ServerModel

  function After(d: Device, es: seq<Event>): Server {
    if es == [] then StartScan(d) else Step(After(d, es[..|es| - 1]), es[|es| - 1])
  }

  predicate IsData(m: Message, name: string) {
    m == Message(name, m.data, None) && m.data.Some?
  }

  /** A packet that was sent because the threshold was reached. */
  predicate IsFull(m: Message) {
    m.data.Some? && 10240 <= |m.data.value| <= 12287
  }

  predicate EndedWith(s: Server, code: Code) {
    s.statuses != [] && s.statuses[0] == code
  }

  /** The parameters come first and only once; then data, every packet but the last one full. */
  ghost predicate Framed(s: Server, d: Device) {
    && (|s.sent| > 0 ==> s.sent[0] == Message(d.name, None, Some(d.backend.parameters)))
    && (forall i :: 1 <= i < |s.sent| ==> IsData(s.sent[i], d.name))
    && (forall i :: 1 <= i < |s.sent| - 1 ==> IsFull(s.sent[i]))
    && (|s.sent| >= 2 && !EndedWith(s, OK) ==> IsFull(s.sent[|s.sent| - 1]))
    && (EndedWith(s, OK) ==> |s.sent| >= 2 && |s.sent[|s.sent| - 1].data.value| < 10240)
    && (s.sent == [] <==> EndedWith(s, CANCELLED_CALL))
  }

  /** Exactly one write is outstanding until `Finish`; the base `Finish` runs once and nothing follows it. */
  ghost predicate Disciplined(s: Server) {
    && |s.statuses| <= 1 && (s.finished <==> s.statuses != [])
    && s.outstanding <= 1 && (!s.finished ==> s.outstanding == 1)
    && !s.lateWrite
  }

  /** Nothing is lost, doubled or reordered; only a failed read leaves bytes behind, and less than a packet. */
  ghost predicate Conserving(s: Server, d: Device) {
    && Total(s.device.backend) == Total(d.backend)
    && Payload(s.sent) <= s.device.backend.delivered
    && |s.device.backend.delivered| < |Payload(s.sent)| + 10240
    && (!EndedWith(s, ABORTED) ==> Payload(s.sent) == s.device.backend.delivered)
    && (EndedWith(s, OK) ==> s.device.backend.Remaining() == [])
  }

  ghost predicate Sound(s: Server, d: Device) {
    Framed(s, d) && Disciplined(s) && Conserving(s, d) && s.device.name == d.name
  }

  /** Either nothing was sent and the scan is over, or the parameters are on their way. */
  lemma StartSends(d: Device)
    requires Fresh(d)
    ensures var s := StartScan(d); var b := s.device.backend;
            && s.device.name == d.name && !s.lateWrite && !s.gone
            && b.delivered == [] && Total(b) == Total(d.backend)
            && (if s.sent == [] then s.finished && s.statuses == [CANCELLED_CALL] && s.outstanding == 0
                else !s.finished && s.statuses == [] && s.outstanding == 1
                     && s.sent == [Message(d.name, None, Some(d.backend.parameters))]
                     && s.device.hasHandle && s.device.state == STARTED
                     && b.calls == [CallOpen(true), CallStart(true), CallGetParameters])
  {
  }

  lemma StartIsSound(d: Device)
    requires Fresh(d)
    ensures Sound(StartScan(d), d)
  {
    StartSends(d);
    PayloadOfAppend([], Message(d.name, None, Some(d.backend.parameters)));
    var s := StartScan(d);
    assert Payload(s.sent) == [];
    assert Framed(s, d) && Disciplined(s) && Conserving(s, d);
  }

  lemma SendingFrames(s: Server, d: Device, p: Pulled)
    requires Framed(s, d) && s.statuses == [] && s.device.name == d.name && Fetched(s.device, p) && !s.finished
    ensures Framed(Sent(s, p), d)
  {
    var packet := Message(s.device.name, Some(p.bytes), None);
    var s' := Sent(s, p);
    if p.stop != Broken {
      assert s'.sent == s.sent + [packet];
      assert s'.sent[|s'.sent| - 1] == packet;
    }
  }

  lemma SendingConserves(s: Server, d: Device, p: Pulled)
    requires Conserving(s, d) && s.statuses == [] && Fetched(s.device, p) && !s.finished
    ensures Conserving(Sent(s, p), d)
  {
    var packet := Message(s.device.name, Some(p.bytes), None);
    PayloadOfAppend(s.sent, packet);
    assert Sent(s, p).device == p.device;
    assert Sent(s, p).sent == if p.stop == Broken then s.sent else s.sent + [packet];
  }

  lemma SendingIsSound(s: Server, d: Device, p: Pulled)
    requires Sound(s.(outstanding := 1), d) && !s.finished && s.outstanding == 0 && Fetched(s.device, p)
    ensures Sound(Sent(s, p), d)
  {
    SendingFrames(s, d, p);
    SendingConserves(s, d, p);
  }

  /** Steps that send nothing and do not touch the bytes. */
  lemma QuietStepIsSound(s: Server, d: Device, s': Server)
    requires Sound(s, d) && Disciplined(s')
    requires s'.sent == s.sent && s'.device.name == s.device.name
    requires Total(s'.device.backend) == Total(s.device.backend)
    requires s'.device.backend.delivered == s.device.backend.delivered
    requires s'.device.backend.Remaining() == s.device.backend.Remaining()
    requires s'.statuses == s.statuses || (s.statuses == [] && s'.statuses == [UNKNOWN])
    ensures Sound(s', d)
  {
    assert Framed(s', d);
    assert Conserving(s', d);
  }

  lemma OtherStepsAreSound(s: Server, d: Device, e: Event)
    requires Sound(s, d) && Enabled(s, e) && (e == WriteDone(true) ==> s.finished)
    ensures Sound(Step(s, e), d)
  {
    QuietStepIsSound(s, d, Step(s, e));
  }

  lemma StepIsSound(s: Server, d: Device, e: Event)
    requires Sound(s, d)
    ensures Sound(Step(s, e), d)
  {
    if Enabled(s, e) {
      if e == WriteDone(true) && !s.finished {
        var completed := s.(outstanding := 0);
        assert completed.(outstanding := 1) == s && Step(s, e) == NextPacket(completed);
        NextPacketSends(completed);
        SendingIsSound(completed, d, Pull(s.device, []));
      } else {
        OtherStepsAreSound(s, d, e);
      }
    }
  }

  /** Framing, protocol discipline and conservation hold at every reachable state of every run. */
  lemma {:induction false} EveryRunIsSound(d: Device, es: seq<Event>)
    requires Fresh(d)
    ensures Sound(After(d, es), d)
  {
    if es == [] {
      StartIsSound(d);
    } else {
      EveryRunIsSound(d, es[..|es| - 1]);
      StepIsSound(After(d, es[..|es| - 1]), d, es[|es| - 1]);
    }
  }

  /** What the data packets say at any moment is a prefix of what the device has and will deliver. */
  lemma PacketsArePrefixOfScan(d: Device, es: seq<Event>)
    requires Fresh(d)
    ensures Payload(After(d, es).sent) <= d.backend.Remaining()
  {
    EveryRunIsSound(d, es);
    PrefixOfTotal(After(d, es), d);
  }

  lemma PrefixOfTotal(s: Server, d: Device)
    requires Fresh(d) && Conserving(s, d)
    ensures Payload(s.sent) <= d.backend.Remaining()
  {
    assert Total(d.backend) == d.backend.Remaining();
  }

  /** The single status a scan ends with when nobody cancels and no write fails. */
  function Verdict(d: Device): Code {
    if d.backend.openStatus != GOOD || d.backend.startStatus != GOOD || d.backend.parametersStatus != GOOD then
      CANCELLED_CALL
    else if d.backend.ending.EndOfFrame? then OK else ABORTED
  }

  ghost predicate Undisturbed(es: seq<Event>) {
    forall e :: e in es ==> e == WriteDone(true) || e == OnDone
  }

  /** Without disturbance the read loop always meets a started handle, and the ending the script holds. */
  ghost predicate OnCourse(s: Server, d: Device) {
    && (s.statuses == [] ==> s.device.hasHandle && s.device.state == STARTED && s.device.backend.started
                             && Verdict(d) != CANCELLED_CALL && !s.gone)
    && (s.device.backend.ending.EndOfFrame? <==> d.backend.ending.EndOfFrame?)
    && (s.statuses == [] || EndedWith(s, Verdict(d)))
    && (EndedWith(s, ABORTED) ==> s.device.backend.Remaining() == [])
  }

  lemma OnCourseStep(s: Server, d: Device, e: Event)
    requires Sound(s, d) && OnCourse(s, d) && (e == WriteDone(true) || e == OnDone)
    ensures OnCourse(Step(s, e), d)
  {
    if e == WriteDone(true) && !s.finished {
      var completed := s.(outstanding := 0);
      NextPacketSends(completed);
      PullEnding(s.device, []);
      PullKeepsFlags(s.device, []);
      PullBreaksLast(s.device, []);
      assert Step(s, e) == Sent(completed, Pull(s.device, []));
    }
  }

  lemma {:induction false} UndisturbedRunsStayOnCourse(d: Device, es: seq<Event>)
    requires Fresh(d) && Undisturbed(es)
    ensures OnCourse(After(d, es), d)
  {
    if es != [] {
      var before := es[..|es| - 1];
      assert (forall e :: e in before ==> e in es) && es[|es| - 1] in es;
      UndisturbedRunsStayOnCourse(d, before);
      EveryRunIsSound(d, before);
      OnCourseStep(After(d, before), d, es[|es| - 1]);
    }
  }

  /**
   A run that reaches its end undisturbed has the verdict as its only status; when that is OK, the data packets spell
   exactly the bytes of the device, and when a read failed, the device has been read until then.
   */
  lemma CompleteRunConserves(d: Device, es: seq<Event>)
    requires Fresh(d) && Undisturbed(es) && After(d, es).gone
    ensures After(d, es).statuses == [Verdict(d)]
    ensures Verdict(d) == OK ==> Payload(After(d, es).sent) == d.backend.Remaining()
    ensures Verdict(d) == ABORTED ==> After(d, es).device.backend.delivered == d.backend.Remaining()
  {
    UndisturbedRunsStayOnCourse(d, es);
    EveryRunIsSound(d, es);
    UsedUp(After(d, es), d);
  }

  /** A script with nothing left has been delivered whole. */
  lemma UsedUp(s: Server, d: Device)
    requires Fresh(d) && Conserving(s, d)
    ensures s.device.backend.Remaining() == [] ==> s.device.backend.delivered == d.backend.Remaining()
  {
    assert Total(d.backend) == d.backend.Remaining();
  }

  /** A write failed before the scan was over. */
  predicate WriteFailed(d: Device, es: seq<Event>) {
    es != [] &&
    (WriteFailed(d, es[..|es| - 1]) ||
     (es[|es| - 1] == WriteDone(false) && Enabled(After(d, es[..|es| - 1]), es[|es| - 1])
      && !After(d, es[..|es| - 1]).finished))
  }

  lemma StatusStep(s: Server, e: Event, code: Code)
    requires Disciplined(s) && (code == UNKNOWN || code == CANCELLED_CALL)
    ensures EndedWith(Step(s, e), code) <==>
            EndedWith(s, code) || (code == UNKNOWN && e == WriteDone(false) && Enabled(s, e) && !s.finished)
  {
    if Enabled(s, e) && e == WriteDone(true) && !s.finished {
      var completed := s.(outstanding := 0);
      NextPacketSends(completed);
      assert Step(s, e) == Sent(completed, Pull(s.device, []));
    }
  }

  /** Whatever else happens, the status says which scans never started and which lost a write. */
  lemma {:induction false} StatusNamesTheCause(d: Device, es: seq<Event>)
    requires Fresh(d)
    ensures EndedWith(After(d, es), UNKNOWN) <==> WriteFailed(d, es)
    ensures EndedWith(After(d, es), CANCELLED_CALL) <==> Verdict(d) == CANCELLED_CALL
  {
    if es != [] {
      var before := es[..|es| - 1];
      StatusNamesTheCause(d, before);
      EveryRunIsSound(d, before);
      StatusStep(After(d, before), es[|es| - 1], UNKNOWN);
      StatusStep(After(d, before), es[|es| - 1], CANCELLED_CALL);
    }
  }

  /** A device that opens with the given status and has nothing to scan. */
  function EmptyPage(name: string, parameters: Parameters, openStatus: Status): Device {
    Device(name, CLOSED, false,
           Backend(openStatus, GOOD, GOOD, parameters, false, false, false, [], EndOfFrame([]), [], []))
  }

  // ---- Every run ends ----

  /** Every event of the sequence was possible when it came. */
  predicate IsRun(d: Device, es: seq<Event>) {
    es == [] || (IsRun(d, es[..|es| - 1]) && Enabled(After(d, es[..|es| - 1]), es[|es| - 1]))
  }

  function Completions(es: seq<Event>): nat {
    if es == [] then 0
    else Completions(es[..|es| - 1]) + if es[|es| - 1].WriteDone? then 1 else 0
  }

  /** The write completions a reactor can still receive. */
  function Patience(s: Server): nat {
    if s.finished then s.outstanding else Budget(s.device.backend) + 2
  }

  lemma PatienceDrops(s: Server, d: Device, e: Event)
    requires Sound(s, d) && Enabled(s, e)
    ensures Patience(Step(s, e)) + (if e.WriteDone? then 1 else 0) <= Patience(s)
  {
    if e == WriteDone(true) && !s.finished {
      var completed := s.(outstanding := 0);
      NextPacketSends(completed);
      PacketPatience(completed, Pull(s.device, []));
      assert Step(s, e) == Sent(completed, Pull(s.device, []));
    }
  }

  lemma PacketPatience(s: Server, p: Pulled)
    requires !s.finished && s.outstanding == 0 && Fetched(s.device, p)
    ensures Patience(Sent(s, p)) < Patience(s)
  {
  }

  lemma {:induction false} CompletionsAreBounded(d: Device, es: seq<Event>)
    requires Fresh(d) && IsRun(d, es)
    ensures Completions(es) + Patience(After(d, es)) <= Budget(d.backend) + 2
  {
    if es != [] {
      var before := es[..|es| - 1];
      CompletionsAreBounded(d, before);
      EveryRunIsSound(d, before);
      PatienceDrops(After(d, before), d, es[|es| - 1]);
    }
  }

  /** Until the reactor is gone gRPC can complete a write or say goodbye, so no RPC stalls. */
  lemma NoStall(d: Device, es: seq<Event>)
    requires Fresh(d) && !After(d, es).gone
    ensures var s := After(d, es);
            Enabled(s, OnDone) || (Enabled(s, WriteDone(true)) && Enabled(s, WriteDone(false)))
    ensures Enabled(After(d, es), OnDone) <==>
            After(d, es).finished && !Enabled(After(d, es), WriteDone(true))
  {
    EveryRunIsSound(d, es);
  }

  /** However a run went so far, gRPC can complete the writes one by one from there until the reactor is gone. */
  lemma {:induction false} EveryScanCanComplete(d: Device, es: seq<Event>) returns (more: seq<Event>)
    requires Fresh(d) && IsRun(d, es)
    ensures es <= more && forall i :: |es| <= i < |more| ==> more[i] == WriteDone(true) || more[i] == OnDone
    ensures IsRun(d, more) && After(d, more).gone
    decreases Patience(After(d, es)) + if After(d, es).gone then 0 else 1
  {
    var s := After(d, es);
    if s.gone {
      more := es;
    } else {
      EveryRunIsSound(d, es);
      var e := NextOnward(s, d);
      ExtendRun(d, es, e);
      more := EveryScanCanComplete(d, es + [e]);
      ExtendsFurther(es, e, more);
    }
  }

  /** What a reactor that is not gone yet waits for brings it nearer to its end. */
  lemma NextOnward(s: Server, d: Device) returns (e: Event)
    requires Sound(s, d) && !s.gone
    ensures (e == WriteDone(true) || e == OnDone) && Enabled(s, e)
    ensures Patience(Step(s, e)) <= Patience(s)
    ensures Step(s, e).gone || Patience(Step(s, e)) < Patience(s)
  {
    e := if Enabled(s, OnDone) then OnDone else WriteDone(true);
    PatienceDrops(s, d, e);
  }

  lemma ExtendsFurther(es: seq<Event>, e: Event, more: seq<Event>)
    requires es + [e] <= more && (e == WriteDone(true) || e == OnDone)
    requires forall i :: |es| + 1 <= i < |more| ==> more[i] == WriteDone(true) || more[i] == OnDone
    ensures es <= more && forall i :: |es| <= i < |more| ==> more[i] == WriteDone(true) || more[i] == OnDone
  {
    assert more[|es|] == e;
  }

  lemma ExtendRun(d: Device, es: seq<Event>, e: Event)
    requires IsRun(d, es) && Enabled(After(d, es), e)
    ensures IsRun(d, es + [e]) && After(d, es + [e]) == Step(After(d, es), e)
  {
    assert (es + [e])[..|es|] == es;
  }
}
