/**
 What the middleware promises over one request and over a sequence of
 requests, stated about the Step function that its Invoke method follows.
 */
module Properties {
  import opened Wrappers
  import opened Tally
  import opened RequestLogging

  /** An enabled request whose next middleware returns and whose depth can be read. */
  predicate Succeeds(r: Request) {
    r.enabled == Some(true) && !r.nextThrows && r.depth.Some?
  }

  /** Every call keeps the invariant: the tally's counts are at least 1 and sum to the counter. */
  lemma StepKeepsInvariant(s: State, r: Request)
    requires Invariant(s)
    ensures Invariant(Step(s, r).state)
  {
    if Succeeds(r) && s.total <= r.depth.value {
      RecordKeepsInvariant(s.collection, r.path);
    }
  }

  /** A successful request within the depth records its path and writes nothing. */
  lemma StepRecordsWithinDepth(s: State, r: Request)
    requires IsDictionary(s.collection) && Succeeds(r) && s.total <= r.depth.value
    ensures Step(s, r) == Outcome(State(Record(s.collection, r.path), s.total + 1, false), [], true)
  {
  }

  /**
   A succeeding request is recorded exactly when the counter before it is at
   most the depth; then only its path's count and the counter change, by one,
   and nothing is logged. Otherwise the state is unchanged and one line is logged.
   */
  lemma RecordedIffWithinDepth(s: State, r: Request)
    requires Invariant(s) && Succeeds(r)
    ensures Step(s, r).calledNext
    ensures Step(s, r).state != s <==> s.total <= r.depth.value
    ensures s.total <= r.depth.value ==>
      && Step(s, r).state == State(Record(s.collection, r.path), s.total + 1, false)
      && Step(s, r).events == []
    ensures s.total > r.depth.value ==> Step(s, r).state == s && |Step(s, r).events| == 1
  {
  }

  /**
   Over the depth, EndCollection leaves the tally and the counter alone and logs
   one line: the report when the tally has entries, the caught error otherwise.
   */
  lemma OverDepthIsFixedPoint(s: State, r: Request)
    requires Invariant(s) && Succeeds(r) && s.total > r.depth.value
    ensures Step(s, r).state == s
    ensures s.collection.order == [] ==> Step(s, r).events == [Error(EmptyCollection)]
    ensures s.collection.order != [] ==>
      var e := MostCalled(s.collection).value;
      Step(s, r).events == [Report(e.key, e.count)]
  {
  }

  /** A report line carries the entry the fold over the dictionary selects. */
  lemma ReportComesFromMostCalled(s: State, r: Request, endpoint: string, count: int)
    requires IsDictionary(s.collection) && Step(s, r).events == [Report(endpoint, count)]
    ensures s.collection.order != [] && MostCalled(s.collection) == Some(Entry(endpoint, count))
  {
  }

  /**
   A report names a path of the tally with its count, no path has a larger
   count, and every path enumerated after it has a strictly smaller one.
   */
  lemma ReportIsLastMostCalled(s: State, r: Request, endpoint: string, count: int)
    requires Invariant(s) && Step(s, r).events == [Report(endpoint, count)]
    ensures endpoint in s.collection.counts && s.collection.counts[endpoint] == count
    ensures forall k :: k in s.collection.counts ==> s.collection.counts[k] <= count
    ensures forall i, j :: 0 <= i < j < |s.collection.order| && s.collection.order[i] == endpoint ==>
      s.collection.counts[s.collection.order[j]] < count
  {
    var c := s.collection;
    ReportComesFromMostCalled(s, r, endpoint, count);
    var m := MostCalledIsLastMaximum(c);
    forall i, j | 0 <= i < j < |c.order| && c.order[i] == endpoint
      ensures c.counts[c.order[j]] < count
    {
      assert i == m;
    }
  }

  /**
   Aggregate finds the tally empty, and the error is logged, exactly when the
   counter is still 0 and the depth read for a succeeding request is negative;
   the state is then unchanged.
   */
  lemma EmptyErrorOnlyOnNegativeDepth(s: State, r: Request)
    requires Invariant(s)
    ensures Step(s, r).events == [Error(EmptyCollection)] <==> Succeeds(r) && s.total == 0 && r.depth.value < 0
    ensures Step(s, r).events == [Error(EmptyCollection)] ==> Step(s, r).state == s
  {
    EmptyIffZeroTotal(s.collection);
  }

  /** A disabled call changes no state, logs one "disabled" line and does not invoke the next middleware. */
  lemma DisabledChangesNothing(s: State, r: Request)
    requires IsDictionary(s.collection) && r.enabled == Some(false)
    ensures Step(s, r) == Outcome(s, [Disabled], false)
  {
  }

  /**
   A call whose flag cannot be read, whose next middleware throws, or whose
   depth cannot be read logs exactly one error and leaves the tally and the
   counter as they were; once the token was entered, the stopwatch is stopped.
   */
  lemma FailureEndsCleanly(s: State, r: Request)
    requires IsDictionary(s.collection)
    requires r.enabled.None? || (r.enabled == Some(true) && (r.nextThrows || r.depth.None?))
    ensures Step(s, r).events ==
      [Error(if r.enabled.None? then EnableUnreadable else if r.nextThrows then NextFailed else DepthUnreadable)]
    ensures Step(s, r).state.collection == s.collection && Step(s, r).state.total == s.total
    ensures Step(s, r).calledNext <==> r.enabled.Some?
    ensures r.enabled.Some? ==> !Step(s, r).state.running
  {
  }

  /** Every call logs exactly one line, except a recorded call, which logs none. */
  lemma OneLineUnlessRecorded(s: State, r: Request)
    requires Invariant(s)
    ensures |Step(s, r).events| <= 1
    ensures Step(s, r).events == [] <==> Step(s, r).state.total == s.total + 1
    ensures Step(s, r).state.total == s.total || Step(s, r).state.total == s.total + 1
  {
  }

  /** The final state and the whole log after a sequence of calls. */
  datatype Trace = Trace(state: State, log: seq<LogEvent>)

  function Run(s: State, reqs: seq<Request>): (t: Trace)
    requires IsDictionary(s.collection)
    ensures IsDictionary(t.state.collection)
    decreases |reqs|
  {
    if reqs == [] then Trace(s, [])
    else
      var t := Run(s, reqs[..|reqs| - 1]);
      var o := Step(t.state, reqs[|reqs| - 1]);
      Trace(o.state, t.log + o.events)
  }

  lemma {:induction false} RunKeepsInvariant(s: State, reqs: seq<Request>)
    requires Invariant(s)
    ensures Invariant(Run(s, reqs).state)
    decreases |reqs|
  {
    if reqs != [] {
      RunKeepsInvariant(s, reqs[..|reqs| - 1]);
      StepKeepsInvariant(Run(s, reqs[..|reqs| - 1]).state, reqs[|reqs| - 1]);
    }
  }

  /** Any number of disabled calls leave the state as it was and log one "disabled" line each. */
  lemma {:induction false} DisabledRunIsIdentity(s: State, reqs: seq<Request>)
    requires IsDictionary(s.collection)
    requires forall i :: 0 <= i < |reqs| ==> reqs[i].enabled == Some(false)
    ensures Run(s, reqs) == Trace(s, seq(|reqs|, _ => Disabled))
    decreases |reqs|
  {
    if reqs != [] {
      var n := |reqs| - 1;
      DisabledRunIsIdentity(s, reqs[..n]);
      assert seq(n, _ => Disabled) + [Disabled] == seq(n + 1, _ => Disabled);
    }
  }

  /**
   Once the counter exceeds every depth that is read, no later call changes
   the state: the counter only changes by recording, which it forbids.
   */
  lemma {:induction false} OverDepthStaysFixed(s: State, reqs: seq<Request>)
    requires Invariant(s)
    requires forall i :: 0 <= i < |reqs| && reqs[i].depth.Some? ==> reqs[i].depth.value < s.total
    ensures Run(s, reqs).state == s
    decreases |reqs|
  {
    if reqs != [] {
      var n := |reqs| - 1;
      OverDepthStaysFixed(s, reqs[..n]);
    }
  }

  /** Recording `paths` from construction keeps the invariant and counts each path as often as it occurs. */
  lemma CollectedCounts(paths: seq<string>)
    ensures Invariant(Collected(paths))
    ensures forall k :: CountOf(Collected(paths).collection, k) == multiset(paths)[k]
  {
    CollectionOfWellFormed(paths);
    CollectionOfCounts(paths);
  }

  /** The paths of the succeeding requests, in order. */
  function SucceedingPaths(reqs: seq<Request>): (ps: seq<string>)
    ensures |ps| <= |reqs|
    decreases |reqs|
  {
    if reqs == [] then []
    else
      var n := |reqs| - 1;
      SucceedingPaths(reqs[..n]) + (if Succeeds(reqs[n]) then [reqs[n].path] else [])
  }

  /** How many calls a fixed depth `d` lets through: `d + 1`, or none for a negative depth. */
  function Capacity(d: int): (n: nat) {
    if d < 0 then 0 else d + 1
  }

  /** The first `n` elements of `s`, or all of them when there are fewer. */
  function Take(s: seq<string>, n: nat): (t: seq<string>)
    ensures |t| <= n
  {
    if |s| <= n then s else s[..n]
  }

  /**
   With a fixed depth `d` (and any depth reads that fail), the state after a
   sequence of calls from construction is exactly that of having recorded the
   first `Capacity(d)` succeeding requests and nothing else.
   */
  lemma {:induction false} RunRecordsFirstSucceeding(reqs: seq<Request>, d: Int32)
    requires forall i :: 0 <= i < |reqs| && reqs[i].depth.Some? ==> reqs[i].depth.value == d
    ensures Run(Initial, reqs).state == Collected(Take(SucceedingPaths(reqs), Capacity(d)))
    decreases |reqs|
  {
    if reqs != [] {
      var n := |reqs| - 1;
      var ps := SucceedingPaths(reqs[..n]);
      var more := if Succeeds(reqs[n]) then [reqs[n].path] else [];
      var before := Take(ps, Capacity(d));
      assert SucceedingPaths(reqs) == ps + more;
      assert Run(Initial, reqs).state == Step(Run(Initial, reqs[..n]).state, reqs[n]).state;
      assert forall i :: 0 <= i < n ==> reqs[..n][i] == reqs[i];
      RunRecordsFirstSucceeding(reqs[..n], d);
      StepFromCollected(before, reqs[n], d);
      TakeExtend(ps, more, Capacity(d));
      if !Succeeds(reqs[n]) {
        assert ps + more == ps;
      }
    }
  }

  /** One call from a state that has recorded at most `Capacity(d)` paths. */
  lemma StepFromCollected(ps: seq<string>, r: Request, d: Int32)
    requires |ps| <= Capacity(d)
    requires r.depth.Some? ==> r.depth.value == d
    ensures Step(Collected(ps), r).state ==
      if Succeeds(r) && |ps| < Capacity(d) then Collected(ps + [r.path]) else Collected(ps)
  {
    CollectedCounts(ps);
    if Succeeds(r) && |ps| < Capacity(d) {
      assert (ps + [r.path])[..|ps|] == ps;
    }
  }

  /** Taking a prefix of an extended sequence extends the prefix only while it is shorter than `n`. */
  lemma TakeExtend(ps: seq<string>, more: seq<string>, n: nat)
    requires |more| <= 1
    ensures Take(ps + more, n) == if |Take(ps, n)| < n then Take(ps, n) + more else Take(ps, n)
  {
    if |ps| > n {
      assert (ps + more)[..n] == ps[..n];
    }
  }

  /**
   From construction, with a fixed depth `d`: the counter is the number of
   succeeding requests, capped at `d + 1`; each path is counted as often as it
   occurs among the first `d + 1` succeeding requests; a negative depth records nothing.
   */
  lemma FixedDepthRecordsAtMostCapacity(reqs: seq<Request>, d: Int32)
    requires forall i :: 0 <= i < |reqs| && reqs[i].depth.Some? ==> reqs[i].depth.value == d
    ensures var s := Run(Initial, reqs).state;
      && s.total == (if |SucceedingPaths(reqs)| <= Capacity(d) then |SucceedingPaths(reqs)| else Capacity(d))
      && s.total <= Capacity(d)
      && (forall k :: CountOf(s.collection, k) == multiset(Take(SucceedingPaths(reqs), Capacity(d)))[k])
      && (d < 0 ==> s.collection == Empty && s.total == 0)
  {
    RunRecordsFirstSucceeding(reqs, d);
    CollectedCounts(Take(SucceedingPaths(reqs), Capacity(d)));
  }

  /** The example of a tally with counts 5, 9 and 2: the report names "/b" with count 9. */
  lemma MostCalledExample()
    ensures MostCalled(Collection(["/a", "/b", "/c"], map["/a" := 5, "/b" := 9, "/c" := 2]))
      == Some(Entry("/b", 9))
  {
  }

  /** Of two paths with equal counts the one enumerated later is reported. */
  lemma TieGoesToLaterKey()
    ensures MostCalled(Collection(["/a", "/b"], map["/a" := 3, "/b" := 3])) == Some(Entry("/b", 3))
  {
  }

  /**
   With depth 3 the counter before the fourth request is still 3, so four
   requests are recorded and the fifth is the first to be reported.
   */
  lemma DepthThreeRecordsFour()
    ensures var r := Request(Some(true), false, Some(3), "/a");
      var s4 := Step(Step(Step(Step(Initial, r).state, r).state, r).state, r).state;
      && s4 == State(Collection(["/a"], map["/a" := 4]), 4, false)
      && Step(s4, r) == Outcome(s4, [Report("/a", 4)], true)
  {
    var r := Request(Some(true), false, Some(3), "/a");
    var s1 := Step(Initial, r).state;
    assert s1 == State(Collection(["/a"], map["/a" := 1]), 1, false);
    var s2 := Step(s1, r).state;
    assert s2 == State(Collection(["/a"], map["/a" := 2]), 2, false);
    var s3 := Step(s2, r).state;
    assert s3 == State(Collection(["/a"], map["/a" := 3]), 3, false);
    var s4 := Step(s3, r).state;
    assert s4 == State(Collection(["/a"], map["/a" := 4]), 4, false);
  }
}
