/**
 The request logging middleware: once per request it either passes through
 (feature disabled), records the request's path in the tally, or reports the
 most-called path. Every exception raised inside a call is caught and logged.
 */
module RequestLogging {
  import opened Wrappers
  import opened Tally

  /** What one call of InvokeAsync depends on besides the middleware's own state. */
  datatype Request = Request(
    enabled: Option<bool>,   // StatsCollectionEnable as a bool; None when the conversion throws
    nextThrows: bool,        // whether awaiting the next middleware throws
    depth: Option<Int32>,    // StatsCollectionDepth as an int; None when the conversion throws
    path: string)            // the request path, the tally's key

  /** Where the exception caught by InvokeAsync was raised. */
  datatype Failure =
    | EnableUnreadable       // converting StatsCollectionEnable threw
    | NextFailed             // the next middleware threw
    | DepthUnreadable        // converting StatsCollectionDepth threw
    | EmptyCollection        // Aggregate in EndCollection found no entries

  /** The kinds of log line the middleware writes, with their fields (elapsed time left out). */
  datatype LogEvent =
    | Disabled                              // informational: the feature is switched off
    | Report(endpoint: string, count: int)  // informational: the most-called path and its count
    | Error(cause: Failure)                 // error: the caught exception

  /** How EndCollection ends: it returns, or throws to its caller. */
  datatype Completion = Normal | Threw(cause: Failure)

  /** The middleware's state: tally, `_countAllEndPointCalls` and whether the stopwatch runs. */
  datatype State = State(collection: Collection, total: int, running: bool)

  /** What one call does: the new state, the lines it logs and whether it invoked the next middleware. */
  datatype Outcome = Outcome(state: State, events: seq<LogEvent>, calledNext: bool)

  /** The state the constructor creates: an empty tally, a zero counter, a stopped stopwatch. */
  const Initial: State := State(Empty, 0, false)

  /** The state after exactly `paths` were recorded, with the stopwatch stopped. */
  function Collected(paths: seq<string>): (s: State)
    ensures IsDictionary(s.collection)
  {
    State(CollectionOf(paths), |paths|, false)
  }

  /** Between calls: the tally is well formed, its counts sum to the counter, the stopwatch is stopped. */
  ghost predicate Invariant(s: State) {
    WellFormed(s.collection) && Total(s.collection) == s.total && !s.running
  }

  /**
   One call of InvokeAsync. The stopwatch is started before the next
   middleware runs and stopped when the benchmark token is disposed, on
   either exit of its `using` block. The counter is compared with the depth
   before it is incremented. Nothing resets the tally or the counter.
   */
  function Step(s: State, r: Request): (o: Outcome)
    requires IsDictionary(s.collection)
    ensures IsDictionary(o.state.collection)
  {
    match r.enabled
    case None => Outcome(s, [Error(EnableUnreadable)], false)
    case Some(false) => Outcome(s, [Disabled], false)
    case Some(true) =>
      var stopped := s.(running := false);
      if r.nextThrows then Outcome(stopped, [Error(NextFailed)], true)
      else
        match r.depth
        case None => Outcome(stopped, [Error(DepthUnreadable)], true)
        case Some(d) =>
          if s.total <= d then
            RecordKeepsDictionary(s.collection, r.path);
            Outcome(State(Record(s.collection, r.path), s.total + 1, false), [], true)
          else
            match MostCalled(s.collection)
            case None => Outcome(stopped, [Error(EmptyCollection)], true)
            case Some(e) => Outcome(stopped, [Report(e.key, e.count)], true)
  }

  /**
   The middleware object; the log it has written is kept as a sequence of
   events. The ghost field `recorded` lists the paths StartCollection has
   counted, in order: the tally and the counter are exactly what recording
   them produces (and hence satisfy Invariant, by ValidMeansInvariant).
   */
  class RequestLoggingMiddleware {
    ghost var recorded: seq<string>
    var keyOrder: seq<string>
    var requestCollection: map<string, int>
    var countAllEndPointCalls: int
    var stopwatchRunning: bool
    var log: seq<LogEvent>

    /** The dictionary `_requestCollection`. */
    function Dictionary(): (c: Collection)
      reads this
    {
      Collection(keyOrder, requestCollection)
    }

    function Snapshot(): (s: State)
      reads this
    {
      State(Dictionary(), countAllEndPointCalls, stopwatchRunning)
    }

    ghost predicate Valid()
      reads this
    {
      Snapshot() == Collected(recorded)
    }

    constructor ()
      ensures Valid()
      ensures Snapshot() == Initial && log == []
    {
      recorded := [];
      keyOrder := [];
      requestCollection := map[];
      countAllEndPointCalls := 0;
      stopwatchRunning := false;
      log := [];
    }

    /** Counts one more call of `path` and one more call in all. */
    method StartCollection(path: string)
      requires Valid()
      modifies this
      ensures Valid()
      ensures Dictionary() == Record(old(Dictionary()), path)
      ensures countAllEndPointCalls == old(countAllEndPointCalls) + 1
      ensures recorded == old(recorded) + [path]
      ensures stopwatchRunning == old(stopwatchRunning) && log == old(log)
    {
      ghost var before := Dictionary();
      if path in requestCollection {
        var count := requestCollection[path];
        requestCollection := requestCollection[path := count + 1];
      } else {
        requestCollection := requestCollection[path := 1];
        keyOrder := keyOrder + [path];
      }
      countAllEndPointCalls := countAllEndPointCalls + 1;
      recorded := recorded + [path];
      assert Dictionary() == Record(before, path);
      assert CollectionOf(recorded) == Record(before, path) by {
        assert recorded[..|recorded| - 1] == old(recorded);
      }
      assert Snapshot() == State(Record(before, path), |recorded|, false);
    }

    /**
     Stops the stopwatch and logs the most-called path; on an empty tally
     Aggregate throws and nothing is logged here.
     */
    method EndCollection() returns (completion: Completion)
      requires Valid()
      modifies this
      ensures Valid()
      ensures Dictionary() == old(Dictionary()) && countAllEndPointCalls == old(countAllEndPointCalls)
      ensures !stopwatchRunning
      ensures match MostCalled(Dictionary())
        case None => completion == Threw(EmptyCollection) && log == old(log)
        case Some(e) => completion == Normal && log == old(log) + [Report(e.key, e.count)]
    {
      stopwatchRunning := false;
      var mostCalled := MostCalled(Dictionary());
      if mostCalled.None? {
        return Threw(EmptyCollection);
      }
      log := log + [Report(mostCalled.value.key, mostCalled.value.count)];
      completion := Normal;
    }

    /**
     InvokeAsync for one request: `enabled` and `depth` are the results of
     reading the configuration, `nextThrows` says how awaiting the next
     middleware ends. Returns whether the next middleware was invoked.
     */
    method Invoke(enabled: Option<bool>, nextThrows: bool, depth: Option<Int32>, path: string)
      returns (calledNext: bool)
      requires Valid()
      modifies this
      ensures Valid()
      ensures var o := Step(old(Snapshot()), Request(enabled, nextThrows, depth, path));
        Snapshot() == o.state && log == old(log) + o.events && calledNext == o.calledNext
    {
      calledNext := false;
      if enabled.None? {
        log := log + [Error(EnableUnreadable)];
        return;
      }
      if !enabled.value {
        log := log + [Disabled];
        return;
      }
      stopwatchRunning := true;
      calledNext := true;
      stopwatchRunning := false;
      if nextThrows {
        log := log + [Error(NextFailed)];
        return;
      }
      if depth.None? {
        log := log + [Error(DepthUnreadable)];
        return;
      }
      if countAllEndPointCalls <= depth.value {
        StartCollection(path);
      } else {
        var completion := EndCollection();
        if completion.Threw? {
          log := log + [Error(completion.cause)];
        }
      }
    }
  }

  /** A valid middleware's tally is well formed and sums to its counter. */
  lemma ValidMeansInvariant(m: RequestLoggingMiddleware)
    requires m.Valid()
    ensures Invariant(m.Snapshot())
  {
    CollectionOfWellFormed(m.recorded);
  }
}
