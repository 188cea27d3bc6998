# EndpointStats request counter, modelled in Dafny

EndpointStats is an ASP.NET Core middleware that counts requests per path.
`RequestLoggingMiddleware` holds three things:

- a tally `Dictionary<string, int>` from request path to call count;
- a running total `_countAllEndPointCalls`;
- a `Stopwatch`.

On each request `InvokeAsync` first reads the `StatsCollectionEnable` flag.
When the flag is false, it logs that the feature is disabled. When the flag is
true, it times the next middleware inside a `BenchmarkToken`, then reads
`StatsCollectionDepth` and compares it with the total before incrementing:

- total ≤ depth: `StartCollection` records the path;
- otherwise: `EndCollection` stops the stopwatch and logs the most-called path,
  found by an `Aggregate` fold over the dictionary.

Every exception is caught and logged as an error.

The model has four modules:

- `Tally` (Tally.dfy): the dictionary, as its keys in enumeration order plus a
  map of counts. The middleware never removes entries, so a .NET dictionary
  enumerates them in the order they were added. This module also holds the
  update that `StartCollection` makes and the `Aggregate` fold (`Fold`,
  `MostCalled`).
- `RequestLogging` (RequestLogging.dfy):
  - the class `RequestLoggingMiddleware`, whose fields are the tally, the
    counter, the stopwatch's running flag and the log written so far;
  - its constructor and the methods `StartCollection`, `EndCollection` and
    `Invoke`;
  - `Step`, a pure function for one call. `Invoke` is proved equal to `Step`.
  - the class invariant `Valid`: a ghost field `recorded` holds the paths
    recorded so far, and the state is exactly `Collected(recorded)`, the state
    that recording them one after another from construction gives.
- `Properties` (Properties.dfy): what one call and a sequence of calls (`Run`)
  promise, proved about `Step`.
- `Int32Overflow` (Int32Overflow.dfy): the finding below, where the `int`
  counts wrap around.

A call takes four inputs:

- the enable flag as read (`Option<bool>`, `None` when the conversion throws);
- whether awaiting the next middleware throws;
- the depth as read (`Option<Int32>`, `None` when the conversion throws);
- the request path.

Its output is the new state, the log lines it adds and whether the next
middleware was invoked. A log line is one of `Disabled`,
`Report(endpoint, count)` or `Error(cause)`.

Five behaviours of the code are easy to misread, and the model states each
one:

- Disabled requests: when the flag is false, the next middleware is never
  called; only the `Disabled` line is logged (`DisabledChangesNothing`).
- Depth threshold: the counter is compared with the depth before it is
  incremented, so with depth 3 four requests are recorded and the fifth is
  reported (`DepthThreeRecordsFour`).
- Ties: the fold replaces the winner unless it is strictly greater, so of equal
  counts the key enumerated later is reported (`TieGoesToLaterKey`,
  `MostCalledIsLastMaximum`).
- Unreadable enable flag: the conversion throws and an error is logged; the
  request is not treated as disabled (`FailureEndsCleanly`).
- Resets: nothing is ever reset, so once over depth every later call reports
  again from the same state (`OverDepthIsFixedPoint`, `OverDepthStaysFixed`).

## Model

| member | source | states |
|---|---|---|
| `RequestLogging.RequestLoggingMiddleware.constructor` | EndpointStats/EndpointStats/RequestLoggingMiddleware.cs:31-39 | The new middleware has an empty tally, a zero counter, a stopped stopwatch and an empty log, and it satisfies the class invariant: its state is exactly what recording its (empty) ghost history of paths gives. |
| `RequestLogging.RequestLoggingMiddleware.StartCollection` | EndpointStats/EndpointStats/RequestLoggingMiddleware.cs:81-94 | The dictionary becomes `Record` of the old one, the counter rises by exactly 1, the stopwatch and the log are unchanged, and the state stays that of recording the paths seen so far, now with this one appended. |
| `RequestLogging.RequestLoggingMiddleware.EndCollection` | EndpointStats/EndpointStats/RequestLoggingMiddleware.cs:96-102 | The stopwatch is stopped and the tally and counter are unchanged. On a non-empty tally it logs one report of the most-called entry. On an empty tally it throws and logs nothing. |
| `RequestLogging.RequestLoggingMiddleware.Invoke` | EndpointStats/EndpointStats/RequestLoggingMiddleware.cs:46-79 | The new state, the log lines added and whether the next middleware ran are all exactly those of `Step`, and the class invariant is kept. |
| `RequestLogging.Step` | EndpointStats/EndpointStats/RequestLoggingMiddleware.cs:50-78 | One call of InvokeAsync, with each thrown exception turned into one error line. Its only ensures is that the tally stays a dictionary; what the call does is stated by the `Properties` lemmas. |
| `Tally.Record` | EndpointStats/EndpointStats/RequestLoggingMiddleware.cs:83-91 | StartCollection's update of the dictionary as a pure function, with no contract of its own. What it means is stated by `RecordCountsOnePath` (one more count for the path, none for any other key), `RecordKeepsDictionary` (where the path is enumerated) and `RecordKeepsInvariant` (counts at least 1, sum one higher). |
| `Tally.RecordCountsOnePath` | EndpointStats/EndpointStats/RequestLoggingMiddleware.cs:83-91 | Recording a path gives it exactly one more count (a missing entry is added with 1) and leaves every other count unchanged. The key set gains the path, and the old enumeration order is a prefix of the new one. |
| `Tally.RecordKeepsDictionary` | EndpointStats/EndpointStats/RequestLoggingMiddleware.cs:83-91 | Recording keeps every key enumerated exactly once and the enumerated keys equal to the stored ones. The enumeration order is unchanged when the path was already a key; otherwise the path is appended last. |
| `Tally.RecordRaisesTotal` | EndpointStats/EndpointStats/RequestLoggingMiddleware.cs:84-93 | Recording a path raises the sum of the counts by exactly 1, whether the path was present or not. |
| `Tally.RecordKeepsInvariant` | EndpointStats/EndpointStats/RequestLoggingMiddleware.cs:84-93 | Recording keeps every count at least 1 and the keys distinct, and raises the sum of the counts by exactly 1. |
| `Tally.EmptyIffZeroTotal` | EndpointStats/EndpointStats/RequestLoggingMiddleware.cs:84-93 | A well-formed tally sums to at least 0, and to 0 exactly when it has no entries. |
| `Tally.Fold` | EndpointStats/EndpointStats/RequestLoggingMiddleware.cs:100 | The fold returns one of the entries it saw, and no entry it saw has a larger count. |
| `Tally.MostCalled` | EndpointStats/EndpointStats/RequestLoggingMiddleware.cs:100 | `None` (Aggregate throws) exactly when the tally is empty. Otherwise the result is a key of the tally with its stored count, and no count in the tally is larger. |
| `Tally.FoldFindsLastMaximum` | EndpointStats/EndpointStats/RequestLoggingMiddleware.cs:100 | Folding on from the last maximum of a prefix ends at the last maximum of the whole sequence. |
| `Tally.MostCalledIsLastMaximum` | EndpointStats/EndpointStats/RequestLoggingMiddleware.cs:100 | The reported key holds a greatest count, and every key enumerated after it has a strictly smaller count, so ties go to the later key. |
| `Tally.CollectionOf` | EndpointStats/EndpointStats/RequestLoggingMiddleware.cs:83-91 | The tally obtained by recording a sequence of paths, one after another from the empty one, is a dictionary. |
| `Tally.CollectionOfWellFormed` | EndpointStats/EndpointStats/RequestLoggingMiddleware.cs:84-93 | Recording a sequence of paths gives counts of at least 1 that sum to the number of paths. |
| `Tally.CollectionOfCounts` | EndpointStats/EndpointStats/RequestLoggingMiddleware.cs:83-91 | Recording a sequence of paths counts each path exactly as often as it occurs in the sequence. |
| `RequestLogging.Collected` | EndpointStats/EndpointStats/RequestLoggingMiddleware.cs:31-39 | The state of a middleware that recorded a sequence of paths from construction: the tally of those paths, the counter at their number and the stopwatch stopped; its tally is a dictionary. |
| `RequestLogging.ValidMeansInvariant` | EndpointStats/EndpointStats/RequestLoggingMiddleware.cs:36-37 | A middleware whose state is that of the paths it recorded has counts of at least 1 that sum to the counter, and a stopped stopwatch. |
| `Properties.StepKeepsInvariant` | EndpointStats/EndpointStats/RequestLoggingMiddleware.cs:36-37 | Every call keeps the invariant: counts are at least 1, they sum to the counter, and the stopwatch is stopped between calls. |
| `Properties.StepRecordsWithinDepth` | EndpointStats/EndpointStats/RequestLoggingMiddleware.cs:61-64 | An enabled request whose next middleware returns and whose counter is at most the depth records the path, raises the counter by 1, logs nothing and ran the next middleware. |
| `Properties.RecordedIffWithinDepth` | EndpointStats/EndpointStats/RequestLoggingMiddleware.cs:61-68 | An enabled request whose next middleware returns changes the state iff the counter before it is at most the depth. It is then recorded with no log line. Otherwise the state is unchanged and exactly one line is logged. |
| `Properties.OverDepthIsFixedPoint` | EndpointStats/EndpointStats/RequestLoggingMiddleware.cs:65-68 | Over the depth the state is unchanged. One report of `MostCalled` is logged, or the empty-collection error when the tally is empty. |
| `Properties.ReportComesFromMostCalled` | EndpointStats/EndpointStats/RequestLoggingMiddleware.cs:65-68 | A call that logs one report does so from a non-empty tally, and the report is the entry the fold selects. |
| `Properties.ReportIsLastMostCalled` | EndpointStats/EndpointStats/RequestLoggingMiddleware.cs:100-101 | A logged report names a path of the tally with its count, and no count is larger. Every path enumerated after it has a strictly smaller count. |
| `Properties.EmptyErrorOnlyOnNegativeDepth` | EndpointStats/EndpointStats/RequestLoggingMiddleware.cs:75-78 | The empty-collection error is logged iff the request succeeds, the counter is 0 and the depth is negative. The state is then unchanged. |
| `Properties.DisabledChangesNothing` | EndpointStats/EndpointStats/RequestLoggingMiddleware.cs:70-73 | A disabled call leaves the state unchanged, logs exactly one `Disabled` line and does not invoke the next middleware. |
| `Properties.FailureEndsCleanly` | EndpointStats/EndpointStats/RequestLoggingMiddleware.cs:50-61 | An unreadable flag, a throwing next middleware or an unreadable depth logs exactly one error whose cause names where it happened. Tally and counter are unchanged. The next middleware ran iff the flag was read. Once the token was entered, the stopwatch ends stopped. |
| `Properties.OneLineUnlessRecorded` | EndpointStats/EndpointStats/RequestLoggingMiddleware.cs:61-78 | Every call logs at most one line. It logs none iff it recorded the request, and the counter rises by 0 or 1. |
| `Properties.Run` | EndpointStats/EndpointStats/RequestLoggingMiddleware.cs:46-79 | Successive calls, threading the state and concatenating the log lines; every intermediate tally is a dictionary. |
| `Properties.RunKeepsInvariant` | EndpointStats/EndpointStats/RequestLoggingMiddleware.cs:84-93 | The invariant holds after any sequence of calls. |
| `Properties.DisabledRunIsIdentity` | EndpointStats/EndpointStats/RequestLoggingMiddleware.cs:70-73 | Any number of disabled calls leave the state unchanged and log one `Disabled` line each. |
| `Properties.OverDepthStaysFixed` | EndpointStats/EndpointStats/RequestLoggingMiddleware.cs:61-68 | Once the counter exceeds every depth read, no later call changes the state. |
| `Properties.CollectedCounts` | EndpointStats/EndpointStats/RequestLoggingMiddleware.cs:84-93 | Recording a sequence of paths counts each path as often as it occurs. The counter is their number, and the invariant holds. |
| `Properties.StepFromCollected` | EndpointStats/EndpointStats/RequestLoggingMiddleware.cs:61-64 | From a state that recorded at most `d + 1` paths, a call at depth `d` records the path iff the request succeeds and fewer than `d + 1` were recorded. |
| `Properties.RunRecordsFirstSucceeding` | EndpointStats/EndpointStats/RequestLoggingMiddleware.cs:61-64 | From construction, with a fixed depth `d`, the state is exactly that of recording the first `d + 1` succeeding requests (none if `d < 0`). |
| `Properties.FixedDepthRecordsAtMostCapacity` | EndpointStats/EndpointStats/RequestLoggingMiddleware.cs:61-64 | With a fixed depth `d`: the counter is the number of succeeding requests, capped at `d + 1`. Each path's count is its number of occurrences among the first `d + 1`. A negative depth records nothing. |
| `Properties.MostCalledExample` | EndpointStats/EndpointStats/RequestLoggingMiddleware.cs:100 | For counts `/a`: 5, `/b`: 9, `/c`: 2, the report names `/b` with 9. |
| `Properties.TieGoesToLaterKey` | EndpointStats/EndpointStats/RequestLoggingMiddleware.cs:100 | For two paths with equal counts, the one enumerated later is reported. |
| `Properties.DepthThreeRecordsFour` | EndpointStats/EndpointStats/RequestLoggingMiddleware.cs:61 | With depth 3, four requests to `/a` are recorded. The fifth leaves the state unchanged and reports `/a` with 4. |
| `Int32Overflow.Wrap32` | EndpointStats/EndpointStats/RequestLoggingMiddleware.cs:86 | Unchecked `int` addition is the identity inside the `int` range, and maps 2^31 to −2^31. |
| `Int32Overflow.RecordAsWritten` | EndpointStats/EndpointStats/RequestLoggingMiddleware.cs:81-94 | StartCollection with the source's 32-bit `int` arithmetic: an existing count becomes `Wrap32(count + 1)`, a new path is added with 1, and the counter becomes `Wrap32(counter + 1)`. Its contract states that the result is still a dictionary; `AsWrittenAgreesBelowInt32Max` and `AsWrittenWrapsAround` state when it agrees with the exact update and when it does not. |
| `Int32Overflow.StepAsWritten` | EndpointStats/EndpointStats/RequestLoggingMiddleware.cs:46-79 | One call of InvokeAsync using `RecordAsWritten` for the recording branch and `Step` everywhere else. Its contract states that the tally stays a dictionary; `AsWrittenAgreesBelowInt32Max` relates it to `Step`. |
| `Int32Overflow.RunAsWritten` | EndpointStats/EndpointStats/RequestLoggingMiddleware.cs:46-79 | Successive as-written calls, threading the state and concatenating the log lines. Its contract states that every intermediate tally is a dictionary; `AsWrittenCountsHits` and `AsWrittenWrapsAround` state what a run of hits on `/` gives. |
| `Int32Overflow.AsWrittenAgreesBelowInt32Max` | EndpointStats/EndpointStats/RequestLoggingMiddleware.cs:86-93 | While the counter is below Int32.MaxValue, the 32-bit update behaves exactly like the exact one. |
| `Int32Overflow.AsWrittenCountsHits` | EndpointStats/EndpointStats/RequestLoggingMiddleware.cs:86-93 | As written, n ≤ Int32.MaxValue hits on `/` at depth Int32.MaxValue leave the count and the counter at n. |
| `Int32Overflow.AsWrittenWrapsAround` | EndpointStats/EndpointStats/RequestLoggingMiddleware.cs:86-93 | As written, the next hit wraps the counter and the count of `/` to −2^31, which breaks the invariant. |
| `Int32Overflow.ExactCountsHits` | EndpointStats/EndpointStats/RequestLoggingMiddleware.cs:86-93 | With exact counting, n ≤ 2^31 hits on `/` at depth Int32.MaxValue leave the count and the counter at n. |
| `Int32Overflow.CorrectedKeepsCounting` | EndpointStats/EndpointStats/RequestLoggingMiddleware.cs:86-93 | With exact counting, after 2^31 hits the count and the counter are 2^31 and the invariant holds. |
| `Int32Overflow.CounterStaysAtMostTwoToThe31` | EndpointStats/EndpointStats/RequestLoggingMiddleware.cs:61-63 | Because the depth is an `int`, the exact counter never exceeds 2^31, so a 64-bit counter would be enough. |

## Findings

| source | as written | input that shows it | evidently intended | confidence | as-written member | corrected member |
|---|---|---|---|---|---|---|
| EndpointStats/EndpointStats/RequestLoggingMiddleware.cs:86-93 | `count + 1` and `_countAllEndPointCalls++` are unchecked 32-bit `int` additions | StatsCollectionDepth = 2147483647, then 2^31 enabled requests to `/` whose next middleware returns: on the last one the counter and the count of `/` wrap to −2147483648 | the counter counts recorded requests and the tally sums to it with positive counts (a wider counter, at most 2^31) | medium, not executed: C# arithmetic is unchecked unless the project enables overflow checking, and the project file is not part of this model | `Int32Overflow.AsWrittenWrapsAround` | `Int32Overflow.CorrectedKeepsCounting` |

The rest of the model counts with unbounded integers: `Tally.Record`, `Step` and
`StartCollection` are the corrected definitions.

## Left out

- The two registration helpers are not part of this model. `RequestLoggingMiddlewareExtensions.cs` and `RequestLoggingStartupFilter.cs` only insert the middleware into the ASP.NET pipeline and contain no logic.
- The benchmark token (`BenchmarkToken.cs`) is reduced to a running/stopped flag. It starts the stopwatch on entry and stops it on disposal.
- Elapsed time is not modelled: neither the stopwatch's elapsed time nor the report's `TotalSeconds` (a `double`). A report carries only the path and its count.
- Reading the configuration is not modelled: the semantics of `Convert.ToBoolean`, `Convert.ToInt32` and `IConfiguration` belong to the .NET library. Each read is an input: a value, or `None` when the conversion throws.
- The next middleware is an input saying whether awaiting it throws. `async`/`await`, cancellation and what it writes to the response are not modelled.
- Concurrent calls are not modelled: each call is one sequential step. The source shares the tally, counter and stopwatch between concurrent requests without synchronisation.
- Log formatting and the `ILogger` sink are not modelled. A log line is recorded by its kind and fields, and an error by where its exception was raised rather than by its message.
- The argument guards are not modelled: `EnsureArg.IsNotNull` on the context and the constructor's null checks on its arguments.
- The request path is assumed non-null. A null `Path.Value` would make the dictionary throw `ArgumentNullException`.
- The dictionary's enumeration order is modelled as insertion order. This is what .NET's `Dictionary` does when nothing is ever removed; the tie-break between equal counts depends on it.
