/**
 Scanner, server, network and client together.  gRPC carries the messages in order; the client may be told OK
 only when the server finished with OK and every message has been read.  Any other status may come at any time.
 */
module EndToEnd {
  import opened Bytes
  import opened SaneApi
  import opened DeviceModel
  import opened ServerModel
  import opened ServerRuns
  import R = ReaderModel

  datatype System = System(server: Server, reader: R.Reader, received: nat, outcome: Option<Code>)

  datatype Happening = AtServer(event: Event) | Receive | Told(code: Code)

  function Begin(d: Device, reader: R.Reader): System {
    System(StartScan(d), R.Scan(reader), 0, None)
  }

  predicate CanHappen(y: System, h: Happening) {
    match h
    case AtServer(e) => Enabled(y.server, e)
    case Receive => y.outcome.None? && y.received < |y.server.sent|
    case Told(code) =>
      y.outcome.None? && (code == OK ==> EndedWith(y.server, OK) && y.received == |y.server.sent|)
  }

  function Next(y: System, h: Happening): System {
    if !CanHappen(y, h) then y else
    match h
    case AtServer(e) => y.(server := Step(y.server, e))
    case Receive =>
      y.(reader := R.OnReadDone(y.reader, y.server.sent[y.received]), received := y.received + 1)
    case Told(code) => y.(reader := R.OnDone(y.reader), outcome := Some(code))
  }

  function Story(d: Device, reader: R.Reader, hs: seq<Happening>): System {
    if hs == [] then Begin(d, reader) else Next(Story(d, reader, hs[..|hs| - 1]), hs[|hs| - 1])
  }

  /**
   The client's file is what the packets read so far say; its running total is the file's size.  Once told the
   outcome, the reader is ready for another scan.
   */
  ghost predicate Reassembled(y: System, d: Device) {
    && y.received <= |y.server.sent|
    && y.reader.file == Payload(y.server.sent[..y.received])
    && (y.outcome.None? ==> y.reader.totalBytes == |y.reader.file| && y.reader.inProgress)
    && (y.received > 0 ==> y.reader.parameters == Some(d.backend.parameters))
    && (y.received > 0 && y.outcome.None? ==> y.reader.hundredPercent == R.HundredPercent(d.backend.parameters))
    && (y.outcome.Some? ==> !y.reader.inProgress && y.reader.totalBytes == 0 && y.reader.hundredPercent == 0)
    && (y.outcome == Some(OK) ==> EndedWith(y.server, OK) && y.received == |y.server.sent|)
  }

  lemma SentGrows(s: Server, e: Event)
    ensures s.sent <= Step(s, e).sent
    ensures s.finished ==> Step(s, e).sent == s.sent && Step(s, e).statuses == s.statuses
  {
    if Enabled(s, e) && e == WriteDone(true) && !s.finished {
      var completed := s.(outstanding := s.outstanding - 1);
      NextPacketSends(completed);
      assert Step(s, e) == Sent(completed, Pull(s.device, []));
    }
  }

  lemma ServerStepReassembles(y: System, d: Device, e: Event)
    requires Disciplined(y.server) && Reassembled(y, d) && Enabled(y.server, e)
    ensures Reassembled(y.(server := Step(y.server, e)), d)
  {
    SentGrows(y.server, e);
    assert Step(y.server, e).sent[..y.received] == y.server.sent[..y.received];
  }

  lemma ReceiveReassembles(y: System, d: Device)
    requires Framed(y.server, d) && Reassembled(y, d) && y.outcome.None? && y.received < |y.server.sent|
    ensures Reassembled(Next(y, Receive), d)
  {
    var m := y.server.sent[y.received];
    PayloadOfAppend(y.server.sent[..y.received], m);
    assert y.server.sent[..y.received + 1] == y.server.sent[..y.received] + [m];
  }

  lemma NextReassembles(y: System, d: Device, h: Happening)
    requires Sound(y.server, d) && Reassembled(y, d)
    ensures Sound(Next(y, h).server, d) && Reassembled(Next(y, h), d)
  {
    if CanHappen(y, h) {
      match h
      case AtServer(e) =>
        StepIsSound(y.server, d, e);
        ServerStepReassembles(y, d, e);
      case Receive =>
        ReceiveReassembles(y, d);
      case Told(code) =>
    }
  }

  lemma {:induction false} EveryStoryReassembles(d: Device, reader: R.Reader, hs: seq<Happening>)
    requires Fresh(d) && !reader.inProgress
    ensures Sound(Story(d, reader, hs).server, d) && Reassembled(Story(d, reader, hs), d)
  {
    if hs == [] {
      StartIsSound(d);
    } else {
      var before := hs[..|hs| - 1];
      EveryStoryReassembles(d, reader, before);
      NextReassembles(Story(d, reader, before), d, hs[|hs| - 1]);
    }
  }

  lemma {:induction false} PayloadOfPrefix(messages: seq<Message>, n: nat)
    requires n <= |messages|
    ensures Payload(messages[..n]) <= Payload(messages)
  {
    if n < |messages| {
      PayloadOfPrefix(messages[..|messages| - 1], n);
      assert messages[..|messages| - 1][..n] == messages[..n];
    } else {
      assert messages[..n] == messages;
    }
  }

  /** Whatever fails, the client's file is a prefix of the bytes the device has to give. */
  lemma FileIsPrefixOfScan(d: Device, reader: R.Reader, hs: seq<Happening>)
    requires Fresh(d) && !reader.inProgress
    ensures Story(d, reader, hs).reader.file <= d.backend.Remaining()
  {
    EveryStoryReassembles(d, reader, hs);
    var y := Story(d, reader, hs);
    PayloadOfPrefix(y.server.sent, y.received);
    PrefixOfTotal(y.server, d);
  }

  /**
   A client that is told OK holds exactly the device's bytes, in order, and the device's parameters: this needs no
   assumption on write completions, cancellations or the moments at which messages are read.
   */
  lemma OkMeansComplete(d: Device, reader: R.Reader, hs: seq<Happening>)
    requires Fresh(d) && !reader.inProgress && Story(d, reader, hs).outcome == Some(OK)
    ensures Story(d, reader, hs).reader.file == d.backend.Remaining()
    ensures Story(d, reader, hs).reader.parameters == Some(d.backend.parameters)
  {
    EveryStoryReassembles(d, reader, hs);
    var y := Story(d, reader, hs);
    assert y.server.sent[..y.received] == y.server.sent;
    TotalWhenOk(y.server, d);
  }

  lemma TotalWhenOk(s: Server, d: Device)
    requires Fresh(d) && Conserving(s, d) && EndedWith(s, OK)
    ensures Payload(s.sent) == d.backend.Remaining()
  {
    var b := s.device.backend;
    assert EndedWith(s, OK) && !EndedWith(s, ABORTED);
    assert Total(b) == b.delivered + b.Remaining() == b.delivered;
    assert Total(d.backend) == d.backend.Remaining();
  }

  // ---- Progress ----

  /** Percentages from 0 on, none below one before it. */
  predicate Rising(progress: seq<R.Progress>) {
    && (forall i :: 0 <= i < |progress| ==> progress[i].Percent? && 0.0 <= progress[i].value)
    && (forall i, j :: 0 <= i < j < |progress| && progress[i].Percent? && progress[j].Percent? ==>
          progress[i].value <= progress[j].value)
  }

  predicate WithinHundred(progress: seq<R.Progress>) {
    forall i :: 0 <= i < |progress| && progress[i].Percent? ==> progress[i].value <= 100.0
  }

  predicate Climbing(progress: seq<R.Progress>) {
    Rising(progress) && WithinHundred(progress)
  }

  /** A percentage is what was read for each byte announced, a hundredfold. */
  lemma PercentIsShare(a: nat, hundred: nat, k: real)
    requires hundred > 0
    ensures R.ProgressOf(a, hundred).value <= k <==> a as real * 100.0 <= k * hundred as real
    ensures k <= R.ProgressOf(a, hundred).value <==> k * hundred as real <= a as real * 100.0
  {
    var h := hundred as real;
    var q := a as real * 100.0 / h;
    assert q * h == a as real * 100.0;
    TimesKeepsOrder(q, k, h);
    TimesKeepsOrder(k, q, h);
  }

  lemma TimesKeepsOrder(x: real, y: real, h: real)
    requires h > 0.0
    ensures x <= y <==> x * h <= y * h
  {
    assert y * h - x * h == (y - x) * h;
    if x <= y {
      assert (y - x) * h >= 0.0;
    } else {
      assert (x - y) * h > 0.0;
    }
  }

  /** More bytes never show less, and more than 100 percent is shown exactly for more bytes than announced. */
  lemma PercentIsMonotonic(a: nat, b: nat, hundred: nat)
    requires a <= b && hundred > 0
    ensures 0.0 <= R.ProgressOf(a, hundred).value <= R.ProgressOf(b, hundred).value
    ensures R.ProgressOf(b, hundred).value <= 100.0 <==> b <= hundred
  {
    PercentIsShare(a, hundred, 0.0);
    PercentIsShare(a, hundred, R.ProgressOf(b, hundred).value);
    PercentIsShare(b, hundred, R.ProgressOf(b, hundred).value);
    PercentIsShare(b, hundred, 100.0);
  }

  lemma RisingAppend(progress: seq<R.Progress>, next: R.Progress)
    requires progress != [] && Rising(progress) && next.Percent? ==> progress[|progress| - 1].value <= next.value
    ensures Rising(progress + [next]) <==> Rising(progress) && next.Percent? && 0.0 <= next.value
  {
    var n := |progress|;
    var more := progress + [next];
    assert more[n] == next;
    assert forall i :: 0 <= i < n ==> progress[i] == more[i];
    if Rising(progress) && next.Percent? && n > 0 {
      forall i | 0 <= i < n ensures progress[i].value <= next.value {
        assert progress[i].value <= progress[n - 1].value;
      }
    }
  }

  lemma WithinAppend(progress: seq<R.Progress>, next: R.Progress)
    ensures WithinHundred(progress + [next]) <==>
            WithinHundred(progress) && (next.Percent? ==> next.value <= 100.0)
  {
    var more := progress + [next];
    assert more[|progress|] == next;
    assert forall i :: 0 <= i < |progress| ==> more[i] == progress[i];
  }

  /** The signals `shown` while a file grew to `size` bytes of `hundred` announced. */
  ghost predicate Shows(shown: seq<R.Progress>, size: nat, hundred: nat) {
    && (shown != [] ==> shown[|shown| - 1] == R.ProgressOf(size, hundred))
    && (shown != [] ==> (Rising(shown) <==> 0 < hundred))
    && (shown != [] ==> (Climbing(shown) <==> 0 < hundred && size <= hundred))
  }

  lemma ShowsNext(shown: seq<R.Progress>, size: nat, size': nat, hundred: nat)
    requires Shows(shown, size, hundred) && size <= size'
    ensures Shows(shown + [R.ProgressOf(size', hundred)], size', hundred)
  {
    var next := R.ProgressOf(size', hundred);
    if hundred > 0 {
      PercentIsMonotonic(size, size', hundred);
    }
    RisingAppend(shown, next);
    WithinAppend(shown, next);
    assert shown + [next] != [];
  }

  /** The progress signals of this scan, against the file and the number of bytes announced. */
  ghost predicate Progressing(y: System, d: Device, earlier: nat) {
    && |y.reader.progress| == earlier + y.received
    && Shows(y.reader.progress[earlier..], |y.reader.file|, R.HundredPercent(d.backend.parameters))
  }

  lemma ReceiveProgresses(y: System, d: Device, y': System, earlier: nat, hundred: nat)
    requires Progressing(y, d, earlier) && y' == Next(y, Receive) && CanHappen(y, Receive)
    requires hundred == y'.reader.hundredPercent == R.HundredPercent(d.backend.parameters)
    requires |y.reader.file| <= y'.reader.totalBytes == |y'.reader.file|
    ensures Progressing(y', d, earlier)
  {
    var p, p' := y.reader.progress, y'.reader.progress;
    var next := R.ProgressOf(|y'.reader.file|, hundred);
    assert p' == p + [next] && p'[earlier..] == p[earlier..] + [next];
    ShowsNext(p[earlier..], |y.reader.file|, |y'.reader.file|, hundred);
  }

  lemma NextProgresses(y: System, d: Device, h: Happening, earlier: nat)
    requires Sound(y.server, d) && Reassembled(y, d) && Progressing(y, d, earlier)
    ensures Progressing(Next(y, h), d, earlier)
  {
    if CanHappen(y, h) && h == Receive {
      NextReassembles(y, d, h);
      ReceiveProgresses(y, d, Next(y, h), earlier, R.HundredPercent(d.backend.parameters));
    }
  }

  lemma {:induction false} StoryProgresses(d: Device, reader: R.Reader, hs: seq<Happening>)
    requires Fresh(d) && !reader.inProgress
    ensures Progressing(Story(d, reader, hs), d, |reader.progress|)
  {
    if hs != [] {
      var before := hs[..|hs| - 1];
      StoryProgresses(d, reader, before);
      EveryStoryReassembles(d, reader, before);
      NextProgresses(Story(d, reader, before), d, hs[|hs| - 1], |reader.progress|);
    }
  }

  /** The signals a scan has caused. */
  function Signals(reader: R.Reader, y: System): seq<R.Progress> {
    if |reader.progress| <= |y.reader.progress| then y.reader.progress[|reader.progress|..] else []
  }

  /**
   Whatever the device delivers: each message read causes one signal; they are percentages that never fall exactly
   when anything was announced, and never pass 100 exactly as long as the file is no longer than that.
   */
  lemma ProgressExactly(d: Device, reader: R.Reader, hs: seq<Happening>)
    requires Fresh(d) && !reader.inProgress
    ensures var y, hundred := Story(d, reader, hs), R.HundredPercent(d.backend.parameters);
            var shown := Signals(reader, y);
            && y.reader.progress[..|y.reader.progress| - |shown|] == reader.progress && |shown| == y.received
            && (y.received > 0 ==> (Rising(shown) <==> 0 < hundred))
            && (y.received > 0 ==> (Climbing(shown) <==> 0 < hundred && |y.reader.file| <= hundred))
  {
    StoryProgresses(d, reader, hs);
    EarlierSignalsStay(d, reader, hs);
  }

  lemma {:induction false} EarlierSignalsStay(d: Device, reader: R.Reader, hs: seq<Happening>)
    ensures reader.progress <= Story(d, reader, hs).reader.progress
  {
    if hs != [] {
      EarlierSignalsStay(d, reader, hs[..|hs| - 1]);
    }
  }

  /** When the device stays within what it announced, progress climbs to 100 at most, unless it announced nothing. */
  lemma ProgressClimbs(d: Device, reader: R.Reader, hs: seq<Happening>)
    requires Fresh(d) && !reader.inProgress
    requires |d.backend.Remaining()| <= R.HundredPercent(d.backend.parameters)
    ensures var y := Story(d, reader, hs);
            Climbing(Signals(reader, y)) <==> y.received == 0 || 0 < R.HundredPercent(d.backend.parameters)
  {
    ProgressExactly(d, reader, hs);
    FileIsPrefixOfScan(d, reader, hs);
  }

  /** A client that is told OK by a device that kept its announcement has seen 100 percent last, if any was made. */
  lemma OkMeansHundredPercent(d: Device, reader: R.Reader, hs: seq<Happening>)
    requires Fresh(d) && !reader.inProgress && Story(d, reader, hs).outcome == Some(OK)
    requires R.HundredPercent(d.backend.parameters) == |d.backend.Remaining()|
    ensures var shown := Signals(reader, Story(d, reader, hs));
            shown != [] && shown[|shown| - 1] ==
              if d.backend.Remaining() == [] then R.Undefined else R.Percent(100.0)
  {
    StoryProgresses(d, reader, hs);
    OkMeansComplete(d, reader, hs);
    EveryStoryReassembles(d, reader, hs);
    ReadAfterOk(Story(d, reader, hs), d);
    LastSignal(Story(d, reader, hs), d, reader);
  }

  lemma ReadAfterOk(y: System, d: Device)
    requires Framed(y.server, d) && Reassembled(y, d) && y.outcome == Some(OK)
    ensures y.received > 0
  {
  }

  lemma LastSignal(y: System, d: Device, reader: R.Reader)
    requires Progressing(y, d, |reader.progress|) && y.received > 0
    requires |y.reader.file| == R.HundredPercent(d.backend.parameters)
    ensures var shown := Signals(reader, y);
            shown != [] && shown[|shown| - 1] == if y.reader.file == [] then R.Undefined else R.Percent(100.0)
  {
    if y.reader.file != [] {
      AllIsHundred(|y.reader.file|);
    }
  }

  lemma AllIsHundred(hundred: nat)
    requires hundred > 0
    ensures R.ProgressOf(hundred, hundred) == R.Percent(100.0)
  {
    PercentIsShare(hundred, hundred, 100.0);
  }

  function NoLines(): Parameters {
    Parameters(R.FRAME_GRAY, true, 0, 0, 0, 8)
  }

  /** The division by zero happens: a device that announces an empty page, and delivers one. */
  lemma NothingAnnounced(name: string, reader: R.Reader)
    requires !reader.inProgress
    ensures var d := EmptyPage(name, NoLines(), GOOD);
            && Fresh(d) && |d.backend.Remaining()| == R.Announced(NoLines()) == R.HundredPercent(NoLines())
            && Signals(reader, Story(d, reader, [Receive])) == [R.Undefined]
  {
    var d := EmptyPage(name, NoLines(), GOOD);
    var hs: seq<Happening> := [Receive];
    assert hs[..0] == [];
    StartSends(d);
    assert Story(d, reader, hs) == Next(Begin(d, reader), Receive);
  }
}
