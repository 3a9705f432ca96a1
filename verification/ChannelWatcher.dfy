/**
 `CChangeStateWatcher`: polling the channel, reporting changes, and rediscovering a lost server a bounded number of
 times.
 */
module ChannelWatcher {

  datatype ChannelState = IDLE | CONNECTING | READY | TRANSIENT_FAILURE | SHUTDOWN

  const MAX_TRIES: nat := 5

  datatype Output = Discover | StoppingAutoDiscovery | StateChanged(state: ChannelState)

  /** The watcher's fields, and what it has done so far. */
  datatype Watcher = Watcher(state: ChannelState, failures: nat, outputs: seq<Output>)

  function Initial(): Watcher {
    Watcher(IDLE, 0, [])
  }

  function IsUp(state: ChannelState): bool {
    state == IDLE || state == READY
  }

  /** The first half of a turn: a discovery for a failure, as long as there are tries left. */
  function Try(w: Watcher, observed: ChannelState): Watcher {
    if observed == TRANSIENT_FAILURE && w.failures < MAX_TRIES then
      w.(failures := w.failures + 1,
         outputs := w.outputs + [Discover] + if w.failures + 1 == MAX_TRIES then [StoppingAutoDiscovery] else [])
    else w
  }

  /** The second half: a report when the state is another. */
  function Report(w: Watcher, observed: ChannelState): Watcher {
    if w.state == observed then w
    else
      w.(state := observed,
         failures := if IsUp(observed) then 0 else w.failures,
         outputs := w.outputs + [StateChanged(observed)])
  }

  /** One turn of the poll loop, on the state the channel reports. */
  function Poll(w: Watcher, observed: ChannelState): Watcher {
    Report(Try(w, observed), observed)
  }

  function Watched(observed: seq<ChannelState>): Watcher {
    if observed == [] then Initial() else Poll(Watched(observed[..|observed| - 1]), observed[|observed| - 1])
  }

  lemma WatchedLast(observed: seq<ChannelState>, next: ChannelState)
    ensures Watched(observed + [next]) == Poll(Watched(observed), next)
  {
    assert (observed + [next])[..|observed|] == observed;
  }

  // ---- What the outputs should be, in terms of the observations alone ----

  /** The failures observed since the channel was last up. */
  function FailuresSinceUp(observed: seq<ChannelState>): nat {
    if observed == [] then 0
    else
      var last := observed[|observed| - 1];
      if last == IDLE || last == READY then 0
      else FailuresSinceUp(observed[..|observed| - 1]) + if last == TRANSIENT_FAILURE then 1 else 0
  }

  /** What observing `next` after `observed` calls for: a discovery for each of the first five failures, the stop
      signal with the fifth, and a report when the state differs from the one before (IDLE at first). */
  function Due(observed: seq<ChannelState>, next: ChannelState): seq<Output> {
    var failures := FailuresSinceUp(observed);
    (if next == TRANSIENT_FAILURE && failures < 5 then [Discover] else [])
    + (if next == TRANSIENT_FAILURE && failures == 4 then [StoppingAutoDiscovery] else [])
    + (if next == LastState(observed) then [] else [StateChanged(next)])
  }

  function LastState(observed: seq<ChannelState>): ChannelState {
    if observed == [] then IDLE else observed[|observed| - 1]
  }

  function AllDue(observed: seq<ChannelState>): seq<Output> {
    if observed == [] then []
    else AllDue(observed[..|observed| - 1]) + Due(observed[..|observed| - 1], observed[|observed| - 1])
  }

  /**
   The watcher does what is due: its counter is the number of failures since the channel was last up, capped at five.
   */
  lemma {:induction false} WatcherDoesWhatIsDue(observed: seq<ChannelState>)
    ensures var w := Watched(observed); var n := FailuresSinceUp(observed);
            && w.state == LastState(observed)
            && w.failures == (if n < 5 then n else 5)
            && w.outputs == AllDue(observed)
  {
    if observed != [] {
      var before, next := observed[..|observed| - 1], observed[|observed| - 1];
      WatcherDoesWhatIsDue(before);
      var w := Watched(before);
      assert w.outputs + [Discover] + [] == w.outputs + [Discover];
      assert IsUp(w.state) ==> w.failures == 0;
      DueIsAppended(w, before, next);
    }
  }

  lemma DueIsAppended(w: Watcher, before: seq<ChannelState>, next: ChannelState)
    requires w.state == LastState(before)
    requires w.failures == if FailuresSinceUp(before) < 5 then FailuresSinceUp(before) else 5
    ensures Poll(w, next).outputs == w.outputs + Due(before, next)
  {
  }

  // ---- Bounds ----

  function Reports(outputs: seq<Output>): seq<ChannelState> {
    if outputs == [] then []
    else Reports(outputs[..|outputs| - 1]) +
         match outputs[|outputs| - 1] case StateChanged(s) => [s] case _ => []
  }

  /** The observations with consecutive repeats removed, starting from IDLE. */
  function Changes(observed: seq<ChannelState>): seq<ChannelState> {
    if observed == [] then []
    else
      var before := observed[..|observed| - 1];
      Changes(before) + if observed[|observed| - 1] == LastState(before) then [] else [observed[|observed| - 1]]
  }

  lemma {:induction false} ReportsOfAppend(xs: seq<Output>, ys: seq<Output>)
    ensures Reports(xs + ys) == Reports(xs) + Reports(ys)
  {
    if ys == [] {
      assert xs + ys == xs;
    } else {
      assert (xs + ys)[..|xs + ys| - 1] == xs + ys[..|ys| - 1];
      ReportsOfAppend(xs, ys[..|ys| - 1]);
    }
  }

  lemma {:induction false} NothingReported(ys: seq<Output>)
    requires forall i :: 0 <= i < |ys| ==> !ys[i].StateChanged?
    ensures Reports(ys) == []
  {
    if ys != [] {
      NothingReported(ys[..|ys| - 1]);
    }
  }

  lemma OneReported(next: ChannelState)
    ensures Reports([StateChanged(next)]) == [next]
  {
    assert [StateChanged(next)][..0] == [];
  }

  lemma ReportsOfDue(observed: seq<ChannelState>, next: ChannelState)
    ensures Reports(Due(observed, next)) == if next == LastState(observed) then [] else [next]
  {
    var failures := FailuresSinceUp(observed);
    var d := if next == TRANSIENT_FAILURE && failures < 5 then [Discover] else [];
    var s := if next == TRANSIENT_FAILURE && failures == 4 then [StoppingAutoDiscovery] else [];
    NothingReported(d + s);
    OneReported(next);
    ReportsOfAppend(d + s, [StateChanged(next)]);
    assert Due(observed, next) == d + s + if next == LastState(observed) then [] else [StateChanged(next)];
    assert d + s + [] == d + s;
  }

  /** What is reported is exactly the observations without consecutive repeats. */
  lemma {:induction false} ReportsAreChanges(observed: seq<ChannelState>)
    ensures Reports(Watched(observed).outputs) == Changes(observed)
  {
    WatcherDoesWhatIsDue(observed);
    if observed != [] {
      var before, next := observed[..|observed| - 1], observed[|observed| - 1];
      ReportsAreChanges(before);
      WatcherDoesWhatIsDue(before);
      ReportsOfAppend(AllDue(before), Due(before, next));
      ReportsOfDue(before, next);
    }
  }

  /** Discoveries since the last report of a channel that is up. */
  function DiscoveriesSinceUp(outputs: seq<Output>): nat {
    if outputs == [] then 0
    else match outputs[|outputs| - 1]
      case StateChanged(s) => if s == IDLE || s == READY then 0 else DiscoveriesSinceUp(outputs[..|outputs| - 1])
      case Discover => DiscoveriesSinceUp(outputs[..|outputs| - 1]) + 1
      case StoppingAutoDiscovery => DiscoveriesSinceUp(outputs[..|outputs| - 1])
  }

  lemma {:induction false} DiscoveriesOfAppend(xs: seq<Output>, y: Output)
    ensures DiscoveriesSinceUp(xs + [y]) ==
            match y
            case StateChanged(s) => if s == IDLE || s == READY then 0 else DiscoveriesSinceUp(xs)
            case Discover => DiscoveriesSinceUp(xs) + 1
            case StoppingAutoDiscovery => DiscoveriesSinceUp(xs)
  {
    assert (xs + [y])[..|xs|] == xs;
  }

  ghost predicate Counts(w: Watcher) {
    DiscoveriesSinceUp(w.outputs) == w.failures <= 5
  }

  lemma TryOutputs(w: Watcher, next: ChannelState)
    ensures Try(w, next).outputs ==
            if next != TRANSIENT_FAILURE || w.failures >= MAX_TRIES then w.outputs
            else if w.failures + 1 == MAX_TRIES then w.outputs + [Discover] + [StoppingAutoDiscovery]
            else w.outputs + [Discover]
  {
  }

  lemma DiscoveryCounts(outputs: seq<Output>)
    ensures DiscoveriesSinceUp(outputs + [Discover]) == DiscoveriesSinceUp(outputs) + 1
    ensures DiscoveriesSinceUp(outputs + [Discover] + [StoppingAutoDiscovery]) == DiscoveriesSinceUp(outputs) + 1
  {
    DiscoveriesOfAppend(outputs, Discover);
    DiscoveriesOfAppend(outputs + [Discover], StoppingAutoDiscovery);
  }

  lemma TryCounts(w: Watcher, next: ChannelState)
    requires Counts(w)
    ensures Counts(Try(w, next))
  {
    TryOutputs(w, next);
    DiscoveryCounts(w.outputs);
  }

  lemma ReportCounts(w: Watcher, next: ChannelState)
    requires Counts(w)
    ensures Counts(Report(w, next))
  {
    DiscoveriesOfAppend(w.outputs, StateChanged(next));
  }

  /** Between two reports of a channel that is up there are at most five discoveries; the counter counts them. */
  lemma {:induction false} DiscoveriesAreBounded(observed: seq<ChannelState>)
    ensures DiscoveriesSinceUp(Watched(observed).outputs) == Watched(observed).failures <= 5
  {
    if observed != [] {
      DiscoveriesAreBounded(observed[..|observed| - 1]);
      TryCounts(Watched(observed[..|observed| - 1]), observed[|observed| - 1]);
      ReportCounts(Try(Watched(observed[..|observed| - 1]), observed[|observed| - 1]), observed[|observed| - 1]);
    }
  }

  /** The watcher itself; `outputs` stands for its signals and calls. */
  class CChangeStateWatcher {
    var state: ChannelState
    var connectionFailureCount: nat
    var outputs: seq<Output>
    ghost var observed: seq<ChannelState>

    ghost predicate Valid()
      reads this
    {
      Watcher(state, connectionFailureCount, outputs) == Watched(observed)
    }

    constructor ()
      ensures Valid() && observed == []
    {
      state, connectionFailureCount, outputs, observed := IDLE, 0, [], [];
    }

    method PollOnce(current: ChannelState)
      requires Valid()
      modifies this
      ensures Valid() && observed == old(observed) + [current]
    {
      WatchedLast(observed, current);
      observed := observed + [current];
      if current == TRANSIENT_FAILURE && connectionFailureCount < MAX_TRIES {
        connectionFailureCount := connectionFailureCount + 1;
        outputs := outputs + [Discover];
        if connectionFailureCount == MAX_TRIES {
          outputs := outputs + [StoppingAutoDiscovery];
        }
      }
      if state == current {
        return;
      }
      state := current;
      if state == IDLE || state == READY {
        connectionFailureCount := 0;
      }
      outputs := outputs + [StateChanged(state)];
    }

    /** The loop, for as long as it is not stopped. */
    method StartImpl(reported: seq<ChannelState>)
      requires Valid() && observed == []
      modifies this
      ensures Valid() && observed == reported
      ensures outputs == AllDue(reported) && Reports(outputs) == Changes(reported)
    {
      for i := 0 to |reported|
        invariant Valid() && observed == reported[..i]
      {
        PollOnce(reported[i]);
        assert reported[..i + 1] == reported[..i] + [reported[i]];
      }
      assert reported[..|reported|] == reported;
      WatcherDoesWhatIsDue(reported);
      ReportsAreChanges(reported);
    }
  }
}
