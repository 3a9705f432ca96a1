/**
 Scans that are left alone and still read past the end of file: which devices make the reactor do so.  It stops
 filling a packet at the threshold without looking at the status of the read that reached it.
 */
module PastEnd {
  import Bytes
  import opened SaneApi
  import opened DeviceModel
  import opened ServerModel
  import opened ServerRuns
  import opened FlowRuns

  /** Cutting the reads into packets at the threshold, with so much gathered: does the last one fill a packet? */
  predicate FillsAtEnd(chunks: seq<Chunk>, tail: Chunk, gathered: nat)
    decreases |chunks|
  {
    if chunks == [] then gathered + |tail| >= 10240
    else
      var more := gathered + |chunks[0]|;
      FillsAtEnd(chunks[1..], tail, if more >= 10240 then 0 else more)
  }

  /** The bytes that come with the end of file fill a packet. */
  predicate TailFills(d: Device) {
    d.backend.ending.EndOfFrame? && FillsAtEnd(d.backend.chunks, d.backend.ending.tail, 0)
  }

  /** What a packet's reads say of the packets to come. */
  ghost predicate PacketPredicts(b: Backend, gathered: nat, tail: Chunk, p: Pulled) {
    var b' := p.device.backend;
    && p.stop != Broken
    && (p.stop == Full && !EndSeen(b') ==>
          (FillsAtEnd(b.chunks, tail, gathered) <==> FillsAtEnd(b'.chunks, tail, 0)))
    && (p.stop == Full && EndSeen(b') ==> FillsAtEnd(b.chunks, tail, gathered))
    && (p.stop == AtEnd ==> !FillsAtEnd(b.chunks, tail, gathered))
  }

  lemma {:induction false} PullPredicts(d: Device, bytes: seq<Bytes.byte>, tail: Chunk)
    requires d.hasHandle && d.state == STARTED && d.backend.started && d.backend.ending == EndOfFrame(tail)
    requires |bytes| < THRESHOLD
    ensures PacketPredicts(d.backend, |bytes|, tail, Pull(d, bytes))
    decreases |d.backend.chunks|
  {
    var r := Read(d);
    ReadFlow(d);
    if r.status == GOOD && |bytes + r.data| < THRESHOLD {
      PullPredicts(r.device, bytes + r.data, tail);
    }
  }

  /** How the packets of an undisturbed run have turned out so far. */
  ghost predicate Foretold(d: Device, s: Server, misused: bool) {
    var b := s.device.backend;
    && (s.statuses == [] ==>
          !misused &&
          if TailTaken(d, b) then TailFills(d)
          else b.ending == d.backend.ending && b.ending.EndOfFrame?
               && (FillsAtEnd(b.chunks, d.backend.ending.tail, 0) <==> TailFills(d)))
    && (EndedWith(s, OK) ==> (misused <==> TailFills(d)))
  }

  lemma PacketForetold(d: Device, s: Server, p: Pulled)
    requires d.backend.ending.EndOfFrame? && Foretold(d, s, false) && s.statuses == [] && !s.finished
    requires s.device.hasHandle && s.device.state == STARTED && s.device.backend.started
    requires !TailTaken(d, s.device.backend) && p == Pull(s.device, [])
    ensures Foretold(d, Sent(s, p), false)
  {
    PullPredicts(s.device, [], d.backend.ending.tail);
    PullSeesEnd(s.device, []);
  }

  /** After the last bytes have come with the end of file, one more packet is read, and it is empty. */
  lemma EmptyPacketForetold(d: Device, s: Server)
    requires TailTaken(d, s.device.backend) && TailFills(d) && s.statuses == [] && !s.finished
    requires s.device.hasHandle && s.device.state == STARTED && s.device.backend.started
    requires s.device.backend.chunks == []
    ensures Foretold(d, Sent(s, Pull(s.device, [])), true)
  {
  }

  lemma StepForetold(d: Device, s: Server, e: Event, misused: bool)
    requires Fresh(d) && Verdict(d) == OK && Sound(s, d) && OnCourse(s, d) && EndingKept(d, s.device.backend)
    requires Foretold(d, s, misused) && (e == WriteDone(true) || e == OnDone)
    ensures Foretold(d, Step(s, e), misused || (e == WriteDone(true) && !s.finished && EndSent(d, s)))
  {
    if e == WriteDone(true) && !s.finished {
      var completed := s.(outstanding := 0);
      NextPacketSends(completed);
      EndSentIsTailTaken(s, d);
      if TailTaken(d, s.device.backend) {
        EmptyPacketForetold(d, completed);
      } else {
        PacketForetold(d, completed, Pull(s.device, []));
      }
      assert Step(s, e) == Sent(completed, Pull(s.device, []));
    }
  }

  lemma {:induction false} RunForetold(d: Device, es: seq<Event>)
    requires Fresh(d) && Verdict(d) == OK && IsRun(d, es) && Undisturbed(es)
    ensures Foretold(d, After(d, es), Misused(d, es))
  {
    if es != [] {
      var before, e := es[..|es| - 1], es[|es| - 1];
      assert es == before + [e];
      assert (forall e :: e in before ==> e in es) && e in es;
      RunForetold(d, before);
      NextForetold(d, before, e, After(d, before));
    }
  }

  lemma NextForetold(d: Device, es: seq<Event>, e: Event, s: Server)
    requires Fresh(d) && Verdict(d) == OK && IsRun(d, es) && Undisturbed(es) && s == After(d, es)
    requires Foretold(d, s, Misused(d, es)) && (e == WriteDone(true) || e == OnDone)
    ensures Foretold(d, Step(s, e), Misused(d, es + [e]))
  {
    EveryRunIsSound(d, es);
    UndisturbedRunsStayOnCourse(d, es);
    RunTracks(d, es);
    MisusedLast(d, es, e);
    StepForetold(d, s, e, Misused(d, es));
  }

  /**
   A complete undisturbed scan of a device that answers every call leaves the code flow exactly when the bytes that
   come with the end of file fill a packet.
   */
  lemma UndisturbedFlowKeptExactly(d: Device, es: seq<Event>)
    requires Fresh(d) && Verdict(d) == OK && IsRun(d, es) && Undisturbed(es) && After(d, es).gone
    ensures FlowOf(After(d, es).device.backend.calls) == Violated <==> TailFills(d)
  {
    RunForetold(d, es);
    CompleteRunConserves(d, es);
    RunTracks(d, es);
  }

  /** An end of file that comes alone fills no packet. */
  lemma {:induction false} EmptyTailNeverFills(chunks: seq<Chunk>, gathered: nat)
    requires gathered < THRESHOLD
    ensures !FillsAtEnd(chunks, [], gathered)
    decreases |chunks|
  {
    if chunks != [] {
      var more := gathered + |chunks[0]|;
      EmptyTailNeverFills(chunks[1..], if more >= THRESHOLD then 0 else more);
    }
  }

  /** So the mock, and every device whose end of file comes alone, never makes the reactor do that. */
  lemma LoneEndKeepsFlow(d: Device, es: seq<Event>)
    requires Fresh(d) && Verdict(d) == OK && IsRun(d, es) && Undisturbed(es) && After(d, es).gone
    requires d.backend.ending == EndOfFrame([])
    ensures FlowOf(After(d, es).device.backend.calls) == Shut
  {
    EmptyTailNeverFills(d.backend.chunks, 0);
    UndisturbedFlowKeptExactly(d, es);
    FlowKeptUnlessMisused(d, es);
    DeviceClosedWhenGone(d, es);
  }

  /** A device whose script fills a packet at the end has a run, without any disturbance, that reads past it. */
  lemma ReadPastEndHappens(d: Device) returns (es: seq<Event>)
    requires Fresh(d) && Verdict(d) == OK && TailFills(d)
    ensures IsRun(d, es) && Undisturbed(es) && FlowOf(After(d, es).device.backend.calls) == Violated
  {
    es := EveryScanCanComplete(d, []);
    UndisturbedFlowKeptExactly(d, es);
  }

  /** Four full reads and a fifth with the end of file. */
  lemma FiveReadsFill(zeros: Chunk)
    requires |zeros| == READ_MAX
    ensures FillsAtEnd([zeros, zeros, zeros, zeros], zeros, 0)
  {
    assert [zeros, zeros, zeros, zeros][1..] == [zeros, zeros, zeros];
    assert [zeros, zeros, zeros][1..] == [zeros, zeros] && [zeros, zeros][1..] == [zeros] && [zeros][1..] == [];
    assert FillsAtEnd([zeros], zeros, 3 * READ_MAX);
  }
}
