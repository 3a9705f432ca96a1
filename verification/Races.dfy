/**
 Reactions that overlap.  gRPC may deliver the completion of the write started at the end of the file before
 the thread that started it has reached its `Finish`.  Here a reaction is cut where that can be seen: after the
 test of `m_finished`, and between the last write and `Finish`.  The stretch from `next_packet`'s start to its
 write stays whole, because the completion that lets another thread into it comes only after that write.
 */
module Races {
  import opened Bytes
  import opened SaneApi
  import opened DeviceModel
  import opened ServerModel
  import opened ServerRuns

  /**
   `entered` holds the threads that found the reactor unfinished and have yet to act on their `ok`; `parked`
   counts those that have written the last packet and have yet to call `Finish`.
   */
  datatype Race = Race(server: Server, entered: seq<bool>, parked: nat)

  datatype Move = Deliver(ok: bool) | Act(thread: nat) | Conclude | Disturb | Retire

  predicate Possible(r: Race, m: Move) {
    && !r.server.gone
    && match m
       case Deliver(_) => r.server.outstanding > 0
       case Act(i) => i < |r.entered|
       case Conclude => r.parked > 0
       case Disturb => true
       case Retire => r.server.statuses != [] && r.server.outstanding == 0 && r.entered == [] && r.parked == 0
  }

  function Play(r: Race, m: Move): Race {
    if !Possible(r, m) then r else
    match m
    case Deliver(ok) =>
      var completed := r.server.(outstanding := r.server.outstanding - 1);
      r.(server := completed, entered := if completed.finished then r.entered else r.entered + [ok])
    case Act(i) =>
      var left := r.entered[..i] + r.entered[i + 1..];
      if r.entered[i] then
        var p := Prepare(r.server);
        Race(p.server, left, if p.atEnd then r.parked + 1 else r.parked)
      else
        Race(Finish(r.server, UNKNOWN), left, r.parked)
    case Conclude => r.(server := Finish(r.server, OK), parked := r.parked - 1)
    case Disturb => r.(server := r.server.(device := Cancel(r.server.device)))
    case Retire => r.(server := r.server.(device := Close(r.server.device), gone := true))
  }

  function Raced(d: Device, ms: seq<Move>): Race {
    if ms == [] then Race(StartScan(d), [], 0) else Play(Raced(d, ms[..|ms| - 1]), ms[|ms| - 1])
  }

  /** Left alone, a delivered completion acts and concludes at once: the serialised reaction is that special case. */
  lemma SerialisedReaction(s: Server, ok: bool)
    requires Enabled(s, WriteDone(ok))
    ensures var r := Play(Play(Play(Race(s, [], 0), Deliver(ok)), Act(0)), Conclude);
            r == Race(Step(s, WriteDone(ok)), [], 0)
  {
  }

  /** What no interleaving can break. */
  ghost predicate Contained(r: Race, d: Device) {
    var s := r.server;
    var b := s.device.backend;
    && |s.statuses| <= 1 && (s.finished <==> s.statuses != [])
    && s.outstanding + |r.entered| <= 1
    && (!s.finished ==> s.outstanding + |r.entered| == 1)
    && Total(b) == Total(d.backend)
    && Payload(s.sent) <= b.delivered
    && |b.delivered| < |Payload(s.sent)| + 10240
    && (!EndedWith(s, ABORTED) ==> Payload(s.sent) == b.delivered)
    && (r.parked > 0 || EndedWith(s, OK) ==>
          b.Remaining() == [] && b.ending.EndOfFrame? && Payload(s.sent) == b.delivered)
    && (s.finished && r.entered != [] ==> EndedWith(s, OK) && s.device.state == STARTED && s.device.hasHandle)
    && (!s.finished ==> s.device.state == STARTED && s.device.hasHandle)
  }

  lemma StartIsContained(d: Device)
    requires Fresh(d)
    ensures Contained(Race(StartScan(d), [], 0), d) && !StartScan(d).lateWrite
  {
    StartSends(d);
    StartIsSound(d);
    SoundIsContained(StartScan(d), d);
  }

  lemma SoundIsContained(s: Server, d: Device)
    requires Sound(s, d) && !EndedWith(s, OK)
    requires !s.finished ==> s.device.hasHandle && s.device.state == STARTED
    ensures Contained(Race(s, [], 0), d)
  {
  }

  /** The state in which `Prepare` leaves the reactor when the read loop ended in `p`. */
  function Loaded(s: Server, p: Pulled): Server {
    var packet := Message(s.device.name, Some(p.bytes), None);
    if p.stop == Broken then
      Finish(s.(device := p.device, bytes := p.bytes, response := Message(s.device.name, None, None)), ABORTED)
    else
      s.(device := p.device, bytes := p.bytes, response := packet, sent := s.sent + [packet],
         outstanding := s.outstanding + 1, lateWrite := s.lateWrite || s.statuses != [])
  }

  lemma PrepareLoads(s: Server)
    ensures var p := Pull(s.device, []);
            Fetched(s.device, p) && Prepare(s) == Prepared(Loaded(s, p), p.stop == AtEnd)
  {
    NextPacketSends(s);
  }

  lemma LoadedIsContained(r: Race, d: Device, p: Pulled)
    requires Contained(r, d) && r.entered == [true] && Fetched(r.server.device, p)
    requires p.stop == AtEnd ==> p.device.backend.ending.EndOfFrame?
    requires r.server.device.backend.ending.EndOfFrame? ==> p.device.backend.ending.EndOfFrame?
    ensures Contained(Race(Loaded(r.server, p), [], if p.stop == AtEnd then r.parked + 1 else r.parked), d)
  {
    var s := r.server;
    var packet := Message(s.device.name, Some(p.bytes), None);
    PayloadOfAppend(s.sent, packet);
    var s' := Loaded(s, p);
    assert s'.device == p.device;
    if s.device.backend.Remaining() == [] {
      assert s.device.backend.delivered + p.bytes + p.device.backend.Remaining() == s.device.backend.delivered;
      assert p.bytes == [] && p.device.backend.Remaining() == [];
    }
  }

  lemma ActIsContained(r: Race, d: Device, i: nat)
    requires Contained(r, d) && Possible(r, Act(i))
    ensures Contained(Play(r, Act(i)), d)
  {
    OnlyOneActs(r, i);
    if r.entered[0] {
      PrepareLoads(r.server);
      PullEnding(r.server.device, []);
      LoadedIsContained(r, d, Pull(r.server.device, []));
    } else {
      FailureIsContained(r, d);
    }
  }

  lemma OnlyOneActs(r: Race, i: nat)
    requires |r.entered| <= 1 && i < |r.entered|
    ensures i == 0 && r.entered == [r.entered[0]] && r.entered[..i] + r.entered[i + 1..] == []
  {
  }

  lemma FailureIsContained(r: Race, d: Device)
    requires Contained(r, d) && r.entered == [false]
    ensures Contained(Race(Finish(r.server, UNKNOWN), [], r.parked), d)
  {
    assert Finish(r.server, UNKNOWN).device == r.server.device;
  }

  lemma PlayIsContained(r: Race, d: Device, m: Move)
    requires Contained(r, d)
    ensures Contained(Play(r, m), d)
  {
    if m.Act? && Possible(r, m) {
      ActIsContained(r, d, m.thread);
    }
  }

  /**
   Under every interleaving: `Finish` at most once, at most one write outstanding, never stalled, and the packets
   are always a prefix of the device's bytes, all of them once the status is OK.
   */
  lemma {:induction false} EveryRaceIsContained(d: Device, ms: seq<Move>)
    requires Fresh(d)
    ensures Contained(Raced(d, ms), d)
  {
    if ms == [] {
      StartIsContained(d);
    } else {
      EveryRaceIsContained(d, ms[..|ms| - 1]);
      PlayIsContained(Raced(d, ms[..|ms| - 1]), d, ms[|ms| - 1]);
    }
  }

  /** A thread is about to read although `Finish` has been called meanwhile, and the handle still delivers. */
  predicate Overtaken(r: Race, m: Move) {
    m.Act? && Possible(r, m) && r.entered[m.thread] && r.server.finished && r.server.device.backend.started
  }

  lemma ActingLate(r: Race, d: Device, p: Pulled)
    requires Contained(r, d) && r.entered == [true] && p == Pull(r.server.device, [])
    ensures Loaded(r.server, p).lateWrite <==>
            r.server.lateWrite || (r.server.finished && r.server.device.backend.started)
  {
    PullEnding(r.server.device, []);
  }

  lemma LateWriteStep(r: Race, d: Device, m: Move)
    requires Contained(r, d)
    ensures Play(r, m).server.lateWrite <==> r.server.lateWrite || Overtaken(r, m)
  {
    if m.Act? && Possible(r, m) {
      assert r.entered == [r.entered[0]];
      if r.entered[0] {
        PrepareLoads(r.server);
        ActingLate(r, d, Pull(r.server.device, []));
        assert Play(r, m).server == Loaded(r.server, Pull(r.server.device, []));
      }
    }
  }

  predicate OvertakenIn(d: Device, ms: seq<Move>) {
    ms != [] && (OvertakenIn(d, ms[..|ms| - 1]) || Overtaken(Raced(d, ms[..|ms| - 1]), ms[|ms| - 1]))
  }

  /** A write follows `Finish` exactly on the interleavings in which some thread is overtaken. */
  lemma {:induction false} LateWriteExactly(d: Device, ms: seq<Move>)
    requires Fresh(d)
    ensures Raced(d, ms).server.lateWrite <==> OvertakenIn(d, ms)
  {
    if ms == [] {
      StartIsContained(d);
    } else {
      var before := ms[..|ms| - 1];
      LateWriteExactly(d, before);
      EveryRaceIsContained(d, before);
      LateWriteStep(Raced(d, before), d, ms[|ms| - 1]);
    }
  }

  lemma EmptyPageParked(d: Device, name: string, parameters: Parameters)
    requires d == EmptyPage(name, parameters, GOOD)
    ensures var r := Play(Play(Race(StartScan(d), [], 0), Deliver(true)), Act(0));
            && r.parked == 1 && r.entered == [] && r.server.outstanding == 1 && r.server.statuses == []
            && !r.server.finished && !r.server.gone && r.server.device.backend.started
  {
    var r := Play(Race(StartScan(d), [], 0), Deliver(true));
    assert r.entered == [true] && r.entered[..0] + r.entered[1..] == [];
    PrepareLoads(r.server);
    PullEnding(r.server.device, []);
    PullKeepsFlags(r.server.device, []);
  }

  lemma OvertakingMoves(r: Race)
    requires r.parked == 1 && r.entered == [] && r.server.outstanding == 1 && !r.server.finished && !r.server.gone
    requires r.server.device.backend.started
    ensures Overtaken(Play(Play(r, Deliver(true)), Conclude), Act(0))
  {
  }

  /** Such an interleaving exists, even for an empty page. */
  lemma LateWriteHappens(name: string, parameters: Parameters)
    ensures var ms := [Deliver(true), Act(0), Deliver(true), Conclude, Act(0)];
            Fresh(EmptyPage(name, parameters, GOOD)) && Raced(EmptyPage(name, parameters, GOOD), ms).server.lateWrite
  {
    var d := EmptyPage(name, parameters, GOOD);
    var ms := [Deliver(true), Act(0), Deliver(true), Conclude, Act(0)];
    EmptyPageParked(d, name, parameters);
    OvertakingMoves(Play(Play(Race(StartScan(d), [], 0), ms[0]), ms[1]));
    FourMoves(d, ms[..4]);
    assert OvertakenIn(d, ms);
    LateWriteExactly(d, ms);
  }

  lemma FourMoves(d: Device, ms: seq<Move>)
    requires |ms| == 4
    ensures Raced(d, ms) == Play(Play(Play(Play(Race(StartScan(d), [], 0), ms[0]), ms[1]), ms[2]), ms[3])
  {
    assert ms[..3][..2] == ms[..2] && ms[..2][..1] == ms[..1] && ms[..1][..0] == [];
    assert Raced(d, ms[..1]) == Play(Race(StartScan(d), [], 0), ms[0]);
    assert Raced(d, ms[..2]) == Play(Raced(d, ms[..1]), ms[1]);
    assert Raced(d, ms[..3]) == Play(Raced(d, ms[..2]), ms[2]);
  }
}
