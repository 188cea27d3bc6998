/**
 The per-path tally `_requestCollection` of the request logging middleware: a
 .NET `Dictionary<string, int>` from request path to call count, updated by
 StartCollection and folded by EndCollection to find the most-called path.
 */
module Tally {
  import opened Wrappers

  /** The range of a C# `int`. */
  const Int32Min: int := -0x8000_0000
  const Int32Max: int := 0x7fff_ffff
  type Int32 = x: int | Int32Min <= x <= Int32Max

  /** A `KeyValuePair<string, int>` as the dictionary enumerates it. */
  datatype Entry = Entry(key: string, count: int)

  /**
   The dictionary: its keys in enumeration order and the count stored under
   each key. Entries are only ever added or overwritten, never removed, so a
   .NET dictionary enumerates them in the order they were added.
   */
  datatype Collection = Collection(order: seq<string>, counts: map<string, int>)

  const Empty: Collection := Collection([], map[])

  /** What every dictionary guarantees: each key is enumerated exactly once. */
  ghost predicate IsDictionary(c: Collection) {
    && (forall i, j :: 0 <= i < j < |c.order| ==> c.order[i] != c.order[j])
    && (forall k :: k in c.counts <==> k in c.order)
  }

  /** The tally invariant: a dictionary in which every path was counted at least once. */
  ghost predicate WellFormed(c: Collection) {
    IsDictionary(c) && forall k :: k in c.counts ==> c.counts[k] >= 1
  }

  /** The count stored for `k`, or 0 when `k` is absent (what TryGetValue leaves in its out parameter). */
  function CountOf(c: Collection, k: string): (n: int) {
    if k in c.counts then c.counts[k] else 0
  }

  /** The sum of the counts stored under the keys of `order`. */
  ghost function Sum(order: seq<string>, counts: map<string, int>): (total: int)
    requires forall k :: k in order ==> k in counts
    decreases |order|
  {
    if order == [] then 0
    else
      var n := |order| - 1;
      assert forall k :: k in order[..n] ==> k in order;
      Sum(order[..n], counts) + counts[order[n]]
  }

  /** The sum of all counts in the tally. */
  ghost function Total(c: Collection): (total: int)
    requires IsDictionary(c)
  {
    Sum(c.order, c.counts)
  }

  /**
   StartCollection's update of the dictionary: TryGetValue on the path, then
   either the indexer stores `count + 1`, or Add stores 1 under a new key.
   Exactly one count rises by one; a new key is enumerated last.
   */
  function Record(c: Collection, path: string): (r: Collection)
  {
    if path in c.counts then Collection(c.order, c.counts[path := c.counts[path] + 1])
    else Collection(c.order + [path], c.counts[path := 1])
  }

  /**
   Recording changes exactly one count, by one: the path's. The key set gains
   the path, and the old enumeration order is a prefix of the new one.
   */
  lemma RecordCountsOnePath(c: Collection, path: string)
    ensures forall k :: CountOf(Record(c, path), k) == CountOf(c, k) + (if k == path then 1 else 0)
    ensures Record(c, path).counts.Keys == c.counts.Keys + {path}
    ensures c.order <= Record(c, path).order
  {
  }

  /**
   Recording keeps each key enumerated exactly once: an existing key keeps its
   place, a new one is enumerated last.
   */
  lemma RecordKeepsDictionary(c: Collection, path: string)
    requires IsDictionary(c)
    ensures IsDictionary(Record(c, path))
    ensures path in c.counts ==> Record(c, path).order == c.order
    ensures path !in c.counts ==> Record(c, path).order == c.order + [path]
  {
  }

  /** The dictionary's entries in enumeration order. */
  function Entries(c: Collection): (es: seq<Entry>)
    requires IsDictionary(c)
  {
    seq(|c.order|, i requires 0 <= i < |c.order| => Entry(c.order[i], c.counts[c.order[i]]))
  }

  /**
   The left fold of `Aggregate((l, r) => l.Value > r.Value ? l : r)`: the
   running winner is replaced unless it is strictly greater, so of equal
   counts the later entry wins.
   */
  function Fold(acc: Entry, rest: seq<Entry>): (r: Entry)
    ensures r == acc || r in rest
    ensures acc.count <= r.count
    ensures forall e :: e in rest ==> e.count <= r.count
    decreases |rest|
  {
    if rest == [] then acc
    else Fold(if acc.count > rest[0].count then acc else rest[0], rest[1..])
  }

  /**
   The entry EndCollection reports. Aggregate without a seed throws
   InvalidOperationException on an empty sequence: that is None here.
   */
  function MostCalled(c: Collection): (r: Option<Entry>)
    requires IsDictionary(c)
    ensures r.None? <==> c.order == []
    ensures r.Some? ==> r.value.key in c.counts && r.value.count == c.counts[r.value.key]
    ensures r.Some? ==> forall k :: k in c.counts ==> c.counts[k] <= r.value.count
  {
    var es := Entries(c);
    EntriesAreTheDictionary(c);
    if es == [] then None else Some(Fold(es[0], es[1..]))
  }

  /** Every entry is a key with its count, and every key appears as an entry. */
  lemma EntriesAreTheDictionary(c: Collection)
    requires IsDictionary(c)
    ensures forall e :: e in Entries(c) ==> e.key in c.counts && e.count == c.counts[e.key]
    ensures forall k :: k in c.counts ==> Entry(k, c.counts[k]) in Entries(c)
  {
    var es := Entries(c);
    forall k | k in c.counts
      ensures Entry(k, c.counts[k]) in es
    {
      var i :| 0 <= i < |c.order| && c.order[i] == k;
      assert es[i] == Entry(k, c.counts[k]);
    }
  }

  /** Index `m` holds a greatest count and every later entry is strictly smaller. */
  ghost predicate IsLastMaximum(es: seq<Entry>, m: int) {
    && 0 <= m < |es|
    && (forall j :: 0 <= j < |es| ==> es[j].count <= es[m].count)
    && (forall j :: m < j < |es| ==> es[j].count < es[m].count)
  }

  /** Folding from the last maximum of a prefix ends at the last maximum of the whole. */
  lemma {:induction false} FoldFindsLastMaximum(es: seq<Entry>, i: nat, k: nat) returns (m: nat)
    requires i < k <= |es|
    requires IsLastMaximum(es[..k], i)
    ensures IsLastMaximum(es, m) && Fold(es[i], es[k..]) == es[m]
    decreases |es| - k
  {
    if k == |es| {
      assert es[..k] == es;
      m := i;
    } else {
      var next := if es[i].count > es[k].count then i else k;
      assert IsLastMaximum(es[..k + 1], next) by {
        assert forall j :: 0 <= j < k ==> es[..k + 1][j] == es[..k][j];
      }
      assert es[k..][1..] == es[k + 1..];
      m := FoldFindsLastMaximum(es, next, k + 1);
    }
  }

  /**
   The reported path is the last key, in enumeration order, whose count is
   the greatest: every key enumerated after it has a strictly smaller count.
   */
  lemma MostCalledIsLastMaximum(c: Collection) returns (m: nat)
    requires IsDictionary(c) && c.order != []
    ensures m < |c.order| && MostCalled(c) == Some(Entry(c.order[m], c.counts[c.order[m]]))
    ensures forall j :: 0 <= j < |c.order| ==> c.counts[c.order[j]] <= c.counts[c.order[m]]
    ensures forall j :: m < j < |c.order| ==> c.counts[c.order[j]] < c.counts[c.order[m]]
  {
    var es := Entries(c);
    assert es[0..] == es;
    m := FoldFindsLastMaximum(es, 0, 1);
    assert es[..1][0] == es[0];
    assert forall j :: 0 <= j < |es| ==> es[j].count == c.counts[c.order[j]];
  }

  /** Sums over the same keys agree when the counts agree on those keys. */
  lemma {:induction false} SumAgree(order: seq<string>, a: map<string, int>, b: map<string, int>)
    requires forall k :: k in order ==> k in a && k in b && a[k] == b[k]
    ensures Sum(order, a) == Sum(order, b)
    decreases |order|
  {
    if order != [] {
      var n := |order| - 1;
      assert forall k :: k in order[..n] ==> k in order;
      SumAgree(order[..n], a, b);
    }
  }

  /** Raising the count of a key listed once raises the sum by one. */
  lemma {:induction false} SumIncrement(order: seq<string>, counts: map<string, int>, p: string)
    requires forall k :: k in order ==> k in counts
    requires forall i, j :: 0 <= i < j < |order| ==> order[i] != order[j]
    requires p in order
    ensures Sum(order, counts[p := counts[p] + 1]) == Sum(order, counts) + 1
    decreases |order|
  {
    var n := |order| - 1;
    var prefix := order[..n];
    assert forall k :: k in prefix ==> k in order;
    if order[n] == p {
      assert p !in prefix by {
        forall i | 0 <= i < n ensures prefix[i] != p {
          assert order[i] != order[n];
        }
      }
      SumAgree(prefix, counts, counts[p := counts[p] + 1]);
    } else {
      assert p in prefix by {
        var i :| 0 <= i < |order| && order[i] == p;
        assert i < n && prefix[i] == p;
      }
      SumIncrement(prefix, counts, p);
    }
  }

  /** With every count at least 1, the sum is at least the number of keys. */
  lemma {:induction false} SumAtLeastLength(order: seq<string>, counts: map<string, int>)
    requires forall k :: k in order ==> k in counts && counts[k] >= 1
    ensures Sum(order, counts) >= |order|
    decreases |order|
  {
    if order != [] {
      var n := |order| - 1;
      assert forall k :: k in order[..n] ==> k in order;
      SumAtLeastLength(order[..n], counts);
    }
  }

  /** A well-formed tally is empty exactly when its counts sum to zero. */
  lemma EmptyIffZeroTotal(c: Collection)
    requires WellFormed(c)
    ensures Total(c) == 0 <==> c.order == []
    ensures Total(c) >= 0
  {
    SumAtLeastLength(c.order, c.counts);
  }

  /** Recording a path keeps every count at least 1 and every key enumerated once. */
  lemma RecordKeepsWellFormed(c: Collection, path: string)
    requires WellFormed(c)
    ensures WellFormed(Record(c, path))
  {
    RecordKeepsDictionary(c, path);
  }

  /** Enumerating one more key, with value v, adds v to the sum. */
  lemma SumAppend(order: seq<string>, counts: map<string, int>, p: string, v: int)
    requires forall k :: k in order ==> k in counts
    requires p !in order
    ensures forall k :: k in order + [p] ==> k in counts[p := v]
    ensures Sum(order + [p], counts[p := v]) == Sum(order, counts) + v
  {
    var longer := order + [p];
    assert longer[..|order|] == order;
    SumAgree(order, counts, counts[p := v]);
  }

  /** Recording a path already in the tally raises the sum of the counts by one. */
  lemma RecordPresentRaisesTotal(c: Collection, path: string)
    requires IsDictionary(c) && path in c.counts
    ensures Sum(c.order, c.counts[path := c.counts[path] + 1]) == Total(c) + 1
  {
    SumIncrement(c.order, c.counts, path);
  }

  /** Recording a new path raises the sum of the counts by one. */
  lemma RecordAbsentRaisesTotal(c: Collection, path: string)
    requires IsDictionary(c) && path !in c.counts
    ensures forall k :: k in c.order + [path] ==> k in c.counts[path := 1]
    ensures Sum(c.order + [path], c.counts[path := 1]) == Total(c) + 1
  {
    SumAppend(c.order, c.counts, path, 1);
  }

  /** Recording a path raises the sum of the counts by exactly one. */
  lemma RecordRaisesTotal(c: Collection, path: string)
    requires IsDictionary(c)
    ensures IsDictionary(Record(c, path))
    ensures Total(Record(c, path)) == Total(c) + 1
  {
    RecordKeepsDictionary(c, path);
    if path in c.counts {
      RecordPresentRaisesTotal(c, path);
    } else {
      RecordAbsentRaisesTotal(c, path);
    }
  }

  /** Recording a path keeps the tally well formed and raises its sum by exactly one. */
  lemma RecordKeepsInvariant(c: Collection, path: string)
    requires WellFormed(c)
    ensures WellFormed(Record(c, path))
    ensures Total(Record(c, path)) == Total(c) + 1
  {
    RecordKeepsWellFormed(c, path);
    RecordRaisesTotal(c, path);
  }

  /** The tally built by recording `paths` in order, starting from an empty dictionary. */
  function CollectionOf(paths: seq<string>): (c: Collection)
    ensures IsDictionary(c)
    decreases |paths|
  {
    if paths == [] then Empty
    else
      var before := CollectionOf(paths[..|paths| - 1]);
      RecordKeepsDictionary(before, paths[|paths| - 1]);
      Record(before, paths[|paths| - 1])
  }

  /** Recording `paths` gives a well-formed tally whose counts sum to the number of paths. */
  lemma {:induction false} CollectionOfWellFormed(paths: seq<string>)
    ensures WellFormed(CollectionOf(paths)) && Total(CollectionOf(paths)) == |paths|
    decreases |paths|
  {
    if paths != [] {
      var n := |paths| - 1;
      CollectionOfWellFormed(paths[..n]);
      RecordKeepsInvariant(CollectionOf(paths[..n]), paths[n]);
    }
  }

  /** Recording `paths` counts each path as often as it occurs among them. */
  lemma {:induction false} CollectionOfCounts(paths: seq<string>)
    ensures forall k :: CountOf(CollectionOf(paths), k) == multiset(paths)[k]
    decreases |paths|
  {
    if paths != [] {
      var n := |paths| - 1;
      CollectionOfCounts(paths[..n]);
      RecordCountsOnePath(CollectionOf(paths[..n]), paths[n]);
      assert multiset(paths) == multiset(paths[..n]) + multiset{paths[n]} by {
        assert paths == paths[..n] + [paths[n]];
      }
    }
  }
}
