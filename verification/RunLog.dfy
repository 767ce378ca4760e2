/** The calls a processor gets from the event builder, as a log. */
module RunLog {
  import opened EventBuilder

  datatype Call = Started(run: int) | Handled(event: Event) | Stopped

  /** A run is open after these calls. */
  ghost predicate InRun(log: seq<Call>) {
    log != [] && match log[|log| - 1]
                 case Started(_) => true
                 case Handled(_) => InRun(log[..|log| - 1])
                 case Stopped => false
  }

  /** Runs one after the other: start, events, stop. No event comes outside a run, no run
      begins inside one. */
  ghost predicate Runs(log: seq<Call>) {
    log == [] || (
      var before := log[..|log| - 1];
      Runs(before) && match log[|log| - 1]
                      case Started(_) => !InRun(before)
                      case Handled(_) => InRun(before)
                      case Stopped => InRun(before)
    )
  }

  /** The events in the log, in order. */
  function HandedIn(log: seq<Call>): seq<Event> {
    if log == [] then []
    else
      var (before, last) := (HandedIn(log[..|log| - 1]), log[|log| - 1]);
      if last.Handled? then before + [last.event] else before
  }

  /** How a log of runs grows. */
  lemma LogGrows(log: seq<Call>, c: Call)
    requires Runs(log) && (if c.Started? then !InRun(log) else InRun(log))
    ensures Runs(log + [c]) && (InRun(log + [c]) <==> !c.Stopped?)
    ensures HandedIn(log + [c]) == if c.Handled? then HandedIn(log) + [c.event] else HandedIn(log)
  {
  }

  lemma {:induction false} OpenedAfter(log: seq<Call>, i: nat)
    requires InRun(log) && i < |log| && log[i] == Stopped
    ensures exists k :: i < k < |log| && log[k].Started?
  {
    var n := |log| - 1;
    if log[n].Started? {
      assert i < n;
    } else {
      OpenedAfter(log[..n], i);
      var k :| i < k < n && log[..n][k].Started?;
      assert log[k].Started?;
    }
  }

  /** In a log of runs an event that comes after a stop comes after another start. */
  lemma {:induction false} EventsInRuns(log: seq<Call>, i: nat, j: nat)
    requires Runs(log) && i < j < |log| && log[i] == Stopped && log[j].Handled?
    ensures exists k :: i < k < j && log[k].Started?
  {
    var before := log[..|log| - 1];
    if j < |log| - 1 {
      EventsInRuns(before, i, j);
      var k :| i < k < j && before[k].Started?;
      assert log[k].Started?;
    } else {
      OpenedAfter(before, i);
      var k :| i < k < |before| && before[k].Started?;
      assert log[k].Started?;
    }
  }

  lemma StoppedAfter(log: seq<Call>, i: nat)
    requires !InRun(log) && Runs(log) && i < |log| && log[i].Started?
    ensures exists k :: i < k < |log| && log[k].Stopped?
  {
    var n := |log| - 1;
    assert log[n].Stopped?;
  }

  /** ... and between two starts there is a stop. */
  lemma {:induction false} StartsApart(log: seq<Call>, i: nat, j: nat)
    requires Runs(log) && i < j < |log| && log[i].Started? && log[j].Started?
    ensures exists k :: i < k < j && log[k].Stopped?
  {
    var before := log[..|log| - 1];
    if j < |log| - 1 {
      StartsApart(before, i, j);
      var k :| i < k < j && before[k].Stopped?;
      assert log[k].Stopped?;
    } else {
      StoppedAfter(before, i);
      var k :| i < k < |before| && before[k].Stopped?;
      assert log[k].Stopped?;
    }
  }
}
