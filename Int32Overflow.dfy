/**
 StartCollection as C# compiles it by default: `count + 1` and
 `_countAllEndPointCalls++` are unchecked 32-bit additions that wrap around.
 They can only wrap when the configured depth is Int32.MaxValue, after
 2^31 recorded requests; the rest of the model counts with unbounded integers.
 */
module Int32Overflow {
  import opened Wrappers
  import opened Tally
  import opened RequestLogging
  import opened Properties

  /** Two's-complement wrap-around of an unchecked C# `int` addition. */
  function Wrap32(x: int): (r: Int32)
    ensures Int32Min <= x <= Int32Max ==> r == x
    ensures x == Int32Max + 1 ==> r == Int32Min
  {
    (x - Int32Min) % 0x1_0000_0000 + Int32Min
  }

  /** StartCollection with 32-bit counts and counter. */
  function RecordAsWritten(s: State, path: string): (t: State)
    requires IsDictionary(s.collection)
    ensures IsDictionary(t.collection)
  {
    var c := s.collection;
    var c' :=
      if path in c.counts then Collection(c.order, c.counts[path := Wrap32(c.counts[path] + 1)])
      else Collection(c.order + [path], c.counts[path := 1]);
    State(c', Wrap32(s.total + 1), s.running)
  }

  /** InvokeAsync with StartCollection as written. */
  function StepAsWritten(s: State, r: Request): (o: Outcome)
    requires IsDictionary(s.collection)
    ensures IsDictionary(o.state.collection)
  {
    if Succeeds(r) && s.total <= r.depth.value then
      Outcome(RecordAsWritten(s, r.path).(running := false), [], true)
    else Step(s, r)
  }

  function RunAsWritten(s: State, reqs: seq<Request>): (t: Trace)
    requires IsDictionary(s.collection)
    ensures IsDictionary(t.state.collection)
    decreases |reqs|
  {
    if reqs == [] then Trace(s, [])
    else
      var t := RunAsWritten(s, reqs[..|reqs| - 1]);
      var o := StepAsWritten(t.state, reqs[|reqs| - 1]);
      Trace(o.state, t.log + o.events)
  }

  /** While the counter is below Int32.MaxValue the 32-bit additions agree with exact ones. */
  lemma AsWrittenAgreesBelowInt32Max(s: State, r: Request)
    requires Invariant(s) && s.total < Int32Max
    ensures StepAsWritten(s, r) == Step(s, r)
  {
    if Succeeds(r) && s.total <= r.depth.value {
      var c := s.collection;
      if r.path in c.counts {
        SumAtLeastEach(c.order, c.counts, r.path);
        assert Wrap32(c.counts[r.path] + 1) == c.counts[r.path] + 1;
      }
      assert RecordAsWritten(s, r.path).collection == Record(c, r.path);
      EmptyIffZeroTotal(c);
      assert Wrap32(s.total + 1) == s.total + 1;
    }
  }

  /** With positive counts, each count is at most the sum. */
  lemma {:induction false} SumAtLeastEach(order: seq<string>, counts: map<string, int>, p: string)
    requires forall k :: k in order ==> k in counts && counts[k] >= 1
    requires p in order
    ensures counts[p] <= Sum(order, counts)
    decreases |order|
  {
    var n := |order| - 1;
    assert forall k :: k in order[..n] ==> k in order;
    if order[n] == p {
      SumAtLeastLength(order[..n], counts);
    } else {
      assert p in order[..n] by {
        var i :| 0 <= i < |order| && order[i] == p;
        assert i < n && order[..n][i] == p;
      }
      SumAtLeastEach(order[..n], counts, p);
    }
  }

  /** A succeeding request for "/" under the largest depth an `int` can hold. */
  const Hit: Request := Request(Some(true), false, Some(Int32Max), "/")

  function Hits(n: nat): (hits: seq<Request>) {
    seq(n, _ => Hit)
  }

  /** A tally holding only "/", counted n times, with the counter at n. */
  function OnlyRoot(n: int): (s: State) {
    State(Collection(["/"], map["/" := n]), n, false)
  }

  /** The state after `n` recorded requests, all for "/". */
  function RootAfter(n: nat): (s: State) {
    if n == 0 then Initial else OnlyRoot(n)
  }

  lemma HitsPrefix(n: nat)
    requires n > 0
    ensures Hits(n)[..n - 1] == Hits(n - 1) && Hits(n)[n - 1] == Hit
  {
  }

  /** As written, n hits are n - 1 hits followed by one more. */
  lemma RunAsWrittenHits(n: nat)
    requires n > 0
    ensures RunAsWritten(Initial, Hits(n)).state == StepAsWritten(RunAsWritten(Initial, Hits(n - 1)).state, Hit).state
  {
    HitsPrefix(n);
  }

  /** With exact counting, n hits are n - 1 hits followed by one more. */
  lemma RunHits(n: nat)
    requires n > 0
    ensures Run(Initial, Hits(n)).state == Step(Run(Initial, Hits(n - 1)).state, Hit).state
  {
    HitsPrefix(n);
  }

  /** The as-written increment of a count of "/" below Int32.MaxValue is exact. */
  lemma RecordAsWrittenOnRoot(n: nat)
    requires 0 < n < Int32Max
    ensures RecordAsWritten(OnlyRoot(n), "/") == OnlyRoot(n + 1)
  {
    assert Wrap32(n + 1) == n + 1;
    assert map["/" := n]["/" := n + 1] == map["/" := n + 1];
  }

  /** One hit on "/" as written, below the point where the counter wraps. */
  lemma AsWrittenHitsOnce(n: nat)
    requires n < Int32Max
    ensures StepAsWritten(RootAfter(n), Hit).state == RootAfter(n + 1)
  {
    if n > 0 {
      RecordAsWrittenOnRoot(n);
    } else {
      assert Empty.counts["/" := 1] == map["/" := 1];
    }
  }

  /** As written, up to Int32.MaxValue hits on "/" count exactly like exact arithmetic. */
  lemma {:induction false} AsWrittenCountsHits(n: nat)
    requires n <= Int32Max
    ensures RunAsWritten(Initial, Hits(n)).state == RootAfter(n)
    decreases n
  {
    if n == 0 {
      assert Hits(0) == [];
    } else {
      RunAsWrittenHits(n);
      AsWrittenCountsHits(n - 1);
      AsWrittenHitsOnce(n - 1);
    }
  }

  /**
   As written, the next hit after Int32.MaxValue of them wraps the counter and
   the count of "/" to Int32.MinValue: the tally no longer sums to the counter
   with positive counts, and since the counter is now below the depth,
   collection goes on from a negative counter.
   */
  lemma AsWrittenWrapsAround()
    ensures var s := RunAsWritten(Initial, Hits(Int32Max + 1)).state;
      && s.total == Int32Min
      && s.collection.counts["/"] == Int32Min
      && !Invariant(s)
  {
    AsWrittenCountsHits(Int32Max);
    RunAsWrittenHits(Int32Max + 1);
  }

  /** Recording "/" once more in a tally holding only "/". */
  lemma RecordOnRoot(n: nat)
    ensures Record(RootAfter(n).collection, "/") == OnlyRoot(n + 1).collection
  {
    if n > 0 {
      assert map["/" := n]["/" := n + 1] == map["/" := n + 1];
    } else {
      assert Empty.counts["/" := 1] == map["/" := 1];
    }
  }

  /** One hit on "/" with exact counting. */
  lemma ExactHitsOnce(n: nat)
    requires n <= Int32Max
    ensures Step(RootAfter(n), Hit).state == RootAfter(n + 1)
  {
    StepRecordsWithinDepth(RootAfter(n), Hit);
    RecordOnRoot(n);
  }

  /** A tally holding only "/" with a positive count keeps the invariant. */
  lemma OnlyRootInvariant(n: nat)
    requires n >= 1
    ensures Invariant(OnlyRoot(n))
  {
    assert Sum(["/"], map["/" := n]) == n by {
      assert ["/"][..0] == [];
    }
  }

  /** With exact counting the same hits give the same states, up to 2^31 of them. */
  lemma {:induction false} ExactCountsHits(n: nat)
    requires n <= Int32Max + 1
    ensures Run(Initial, Hits(n)).state == RootAfter(n)
    decreases n
  {
    if n == 0 {
      assert Hits(0) == [];
    } else {
      RunHits(n);
      ExactCountsHits(n - 1);
      ExactHitsOnce(n - 1);
    }
  }

  /** The corrected counting: after 2^31 hits the count and the counter are 2^31 and the invariant holds. */
  lemma CorrectedKeepsCounting()
    ensures var s := Run(Initial, Hits(Int32Max + 1)).state;
      && s.total == Int32Max + 1
      && CountOf(s.collection, "/") == Int32Max + 1
      && Invariant(s)
  {
    ExactCountsHits(Int32Max + 1);
    OnlyRootInvariant(Int32Max + 1);
  }

  /** One call never lifts the counter above 2^31: recording needs a counter at most the depth. */
  lemma StepStaysAtMostTwoToThe31(s: State, r: Request)
    requires Invariant(s) && s.total <= Int32Max + 1
    ensures Step(s, r).state.total <= Int32Max + 1
  {
  }

  /** Exact counting never needs more than 32 bits plus one: the counter stays at most 2^31. */
  lemma {:induction false} CounterStaysAtMostTwoToThe31(s: State, reqs: seq<Request>)
    requires Invariant(s) && s.total <= Int32Max + 1
    ensures Run(s, reqs).state.total <= Int32Max + 1
    decreases |reqs|
  {
    if reqs != [] {
      var n := |reqs| - 1;
      var before := Run(s, reqs[..n]).state;
      assert Run(s, reqs).state == Step(before, reqs[n]).state;
      CounterStaysAtMostTwoToThe31(s, reqs[..n]);
      RunKeepsInvariant(s, reqs[..n]);
      StepStaysAtMostTwoToThe31(before, reqs[n]);
    }
  }
}
