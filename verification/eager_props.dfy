/** Properties of the look-ahead iterator across several calls: results are
    delivered in backing-pull order, the first call prefetches a full queue,
    close closes every pending value and reports errors in a fixed order, and
    a closed iterator only reports the end. */
module EagerProperties {
  import opened Futures
  import opened Steps
  import opened Sources
  import opened Eager

  /** The queue holds the mapped results of the most recent backing pulls,
      oldest first: entry `i` comes from pull `pulls - |queue| + i`. */
  ghost predicate Coherent<T, U>(s: Eager<T, U>) {
    && |s.queue| <= s.backing.pulls
    && forall i :: 0 <= i < |s.queue| ==>
         s.queue[i] == MappedAt(s, s.backing.pulls - |s.queue| + i)
  }

  /** How many backing pulls have been handed to callers: the number of the
      next pull whose result a caller will receive. */
  function Delivered<T, U>(s: Eager<T, U>): int {
    s.backing.pulls - |s.queue|
  }

  lemma SameSetupSameResults<T, U>(a: Eager<T, U>, b: Eager<T, U>)
    requires SameSetup(a, b)
    ensures forall k: nat :: PulledAt(a, k) == PulledAt(b, k) && MappedAt(a, k) == MappedAt(b, k)
  {
  }

  /** A freshly built iterator, whatever its backing iterator has done
      before, is coherent and delivers the next backing pull first. */
  lemma NewEagerCoherent<T, U>(backing: Source<T>, executeAhead: int,
                               mapping: Step<T> -> Call<Outcome<U>>,
                               closeFn: U -> Call<Status>)
    ensures Coherent(NewEager(backing, executeAhead, mapping, closeFn))
    ensures Bounded(NewEager(backing, executeAhead, mapping, closeFn))
    ensures Delivered(NewEager(backing, executeAhead, mapping, closeFn)) == backing.pulls
  {
  }

  /** The fill loop keeps the queue coherent and does not move the delivery
      point: every pull it makes adds exactly one entry. */
  lemma FillLoopKeepsOrder<T, U>(s: Eager<T, U>)
    requires Coherent(s)
    ensures Coherent(FillLoop(s))
    ensures Delivered(FillLoop(s)) == Delivered(s)
  {
    var r := FillLoop(s);
    FillLoopEntries(s);
    var q, p := |s.queue|, s.backing.pulls;
    assert r.queue[..q] == s.queue;
    assert r.backing.script == s.backing.script && r.mapping == s.mapping;
    forall i | 0 <= i < |r.queue|
      ensures r.queue[i] == MappedAt(r, r.backing.pulls - |r.queue| + i)
    {
      if i < q {
        assert r.queue[i] == r.queue[..q][i];
      } else {
        var k := p + (i - q);
        assert r.queue[q + (k - p)] == MappedAt(s, k);
      }
    }
  }

  /** attachListener hands the caller the oldest undelivered result and
      moves the delivery point by one. */
  lemma AttachKeepsOrder<T, U>(s: Eager<T, U>)
    requires Coherent(s)
    ensures var (_, out, s1) := AttachListener(s);
      && out == MappedAt(s, Delivered(s))
      && Coherent(s1)
      && Delivered(s1) == Delivered(s) + 1
  {
  }

  /** One nextFuture on an open iterator delivers the mapped result of the
      oldest backing pull not yet delivered, and keeps the queue coherent. */
  lemma NextFutureInOrder<T, U>(s: Eager<T, U>)
    requires Coherent(s) && !s.terminated
    ensures var (out, s') := NextFuture(s);
      && out == MappedAt(s, Delivered(s))
      && Coherent(s')
      && Delivered(s') == Delivered(s) + 1
  {
    AttachKeepsOrder(s);
    var (next, out, s1) := AttachListener(s);
    if !IsEnd(next) {
      FillLoopKeepsOrder(s1);
    }
  }

  /** `n` consecutive nextFuture calls and what each delivered. */
  function Consume<T, U>(s: Eager<T, U>, n: nat): (r: (seq<Outcome<U>>, Eager<T, U>))
    ensures |r.0| == n
    ensures NoCloseWork(s, r.1)
    ensures Bounded(s) ==> Bounded(r.1)
    decreases n
  {
    if n == 0 then ([], s)
    else
      var (out, s1) := NextFuture(s);
      var (outs, s2) := Consume(s1, n - 1);
      ([out] + outs, s2)
  }

  /** Results reach callers strictly in backing-pull order: the `i`-th of
      `n` consecutive nextFuture calls receives the mapped result of backing
      pull `Delivered(s) + i`, whatever the queue held in between. */
  lemma {:induction false} DeliveredInBackingOrder<T, U>(s: Eager<T, U>, n: nat)
    requires Coherent(s) && !s.terminated
    ensures var (outs, s') := Consume(s, n);
      && Coherent(s')
      && Delivered(s') == Delivered(s) + n
      && forall i :: 0 <= i < n ==> outs[i] == MappedAt(s, Delivered(s) + i)
    decreases n
  {
    if n > 0 {
      var (out, s1) := NextFuture(s);
      NextFutureInOrder(s);
      DeliveredInBackingOrder(s1, n - 1);
      var (outs, s2) := Consume(s1, n - 1);
      assert Consume(s, n) == ([out] + outs, s2);
      assert s1.backing.script == s.backing.script && s1.mapping == s.mapping;
      forall i | 0 <= i < n
        ensures ([out] + outs)[i] == MappedAt(s, Delivered(s) + i)
      {
        if i > 0 {
          assert ([out] + outs)[i] == outs[i - 1] == MappedAt(s1, Delivered(s1) + (i - 1));
        }
      }
    }
  }

  /** A full fill from the current state when the next pulls all produce a
      value or a failure: the loop stops exactly when the queue is full. */
  lemma FillLoopFills<T, U>(s: Eager<T, U>)
    requires Bounded(s)
    requires forall k :: s.backing.pulls <= k < s.backing.pulls + (Cap(s) - |s.queue|) - 1 ==>
      !IsEnd(PulledAt(s, k))
    ensures FillLoop(s).backing.pulls == s.backing.pulls + (Cap(s) - |s.queue|)
    ensures |FillLoop(s).queue| == Cap(s)
  {
    FillLoopStops(s);
  }

  /** The first nextFuture on a fresh iterator whose backing iterator does
      not report the end within its first `executeAhead` pulls makes
      `executeAhead + 1` backing pulls: one for the caller and a full queue
      of prefetched entries. */
  lemma FirstNextFuturePrefetches<T, U>(s: Eager<T, U>)
    requires s.queue == [] && !s.terminated
    requires forall k :: s.backing.pulls <= k < s.backing.pulls + Cap(s) ==> !IsEnd(PulledAt(s, k))
    ensures NextFuture(s).1.backing.pulls == s.backing.pulls + Cap(s) + 1
    ensures |NextFuture(s).1.queue| == Cap(s)
  {
    var (next, out, s1) := AttachListener(s);
    SameSetupSameResults(s, s1);
    if !IsEnd(next) {
      FillLoopFills(s1);
    }
  }

  /** Closing an iterator with a failed pending entry fails: that entry's
      close fails, so the item-close phase reports an error even when the
      epoch terminated cleanly. */
  lemma FailedEntryFailsClose<T, U>(s: Eager<T, U>, epochResult: Status, i: nat)
    requires i < |s.queue| && s.queue[i].Failed?
    ensures ItemsClose(s.queue, s.closeFn).0.Failed?
    ensures Close(s, epochResult).0.Failed?
  {
    var items := ItemsClose(s.queue, s.closeFn).0;
    assert EntryClose(s.queue[i], s.closeFn) != Ok;
    if items.Done? {
      DoneIsOk(items);
    }
    FirstFailureOfThree(epochResult, items, ConvertSynchronousException(s.backing.closeCall));
  }

  /** close succeeds exactly when the epoch terminated cleanly, every pending
      entry closed cleanly and the backing iterator closed cleanly. */
  lemma CloseSucceedsIff<T, U>(s: Eager<T, U>, epochResult: Status)
    ensures Close(s, epochResult).0 == Ok <==>
      && epochResult == Ok
      && (forall i :: 0 <= i < |s.queue| ==> EntryClose(s.queue[i], s.closeFn) == Ok)
      && ConvertSynchronousException(s.backing.closeCall) == Ok
  {
    var items := ItemsClose(s.queue, s.closeFn).0;
    var backingResult := ConvertSynchronousException(s.backing.closeCall);
    FirstFailureOfThree(epochResult, items, backingResult);
    if epochResult.Done? { DoneIsOk(epochResult); }
    if items.Done? { DoneIsOk(items); }
    if backingResult.Done? { DoneIsOk(backingResult); }
  }

  /** After close, nextFuture reports the end on every call and touches
      neither the backing iterator nor the queue. */
  lemma {:induction false} ClosedIteratorEnds<T, U>(s: Eager<T, U>, epochResult: Status, n: nat)
    ensures var closed := Close(s, epochResult).1;
      var (outs, s') := Consume(closed, n);
      && s' == closed
      && forall i :: 0 <= i < n ==> IsEnd(outs[i])
    decreases n
  {
    if n > 0 {
      var closed := Close(s, epochResult).1;
      ClosedIteratorEnds(s, epochResult, n - 1);
      var (outs, s') := Consume(closed, n - 1);
      assert Consume(closed, n) == ([EndFuture()] + outs, s');
      assert forall i :: 1 <= i < n ==> ([EndFuture<U>()] + outs)[i] == outs[i - 1];
    }
  }

  /** When every pending entry completed with a value, close hands each of
      those values to `closeFn` exactly once, in queue order. */
  lemma {:induction false} ValuesOfAllValues<U>(q: seq<Outcome<U>>)
    requires forall i :: 0 <= i < |q| ==> q[i].Done? && q[i].value.Val?
    ensures |ValuesOf(q)| == |q|
    ensures forall i :: 0 <= i < |q| ==> ValuesOf(q)[i] == q[i].value.value
  {
    if |q| > 0 {
      ValuesOfAllValues(q[1..]);
      assert ValuesOf(q) == [q[0].value.value] + ValuesOf(q[1..]);
    }
  }

  /** The values handed to `closeFn` for a queue split in two are those of
      the first part followed by those of the second: together with the
      one-entry cases of ValuesOf, this fixes the log completely. */
  lemma {:induction false} ValuesOfConcat<U>(a: seq<Outcome<U>>, b: seq<Outcome<U>>)
    ensures ValuesOf(a + b) == ValuesOf(a) + ValuesOf(b)
    decreases |a|
  {
    if |a| == 0 {
      assert a + b == b;
    } else {
      ValuesOfConcat(a[1..], b);
      assert (a + b)[1..] == a[1..] + b;
      assert (a + b)[0] == a[0];
    }
  }

  /** Every pending value reaches `closeFn` exactly once and in queue order,
      whatever end markers or failures surround it: entry `i` holding value
      `u` contributes `u` right after the values of the entries before it and
      right before the values of the entries after it. */
  lemma ValuesOfSplit<U>(q: seq<Outcome<U>>, i: nat, u: U)
    requires i < |q| && q[i] == Done(Val(u))
    ensures ValuesOf(q) == ValuesOf(q[..i]) + [u] + ValuesOf(q[i + 1..])
    ensures |ValuesOf(q)| == |ValuesOf(q[..i])| + 1 + |ValuesOf(q[i + 1..])|
  {
    assert q == q[..i] + [q[i]] + q[i + 1..];
    ValuesOfConcat(q[..i] + [q[i]], q[i + 1..]);
    ValuesOfConcat(q[..i], [q[i]]);
  }

  /** An end marker or a failure in the queue hands nothing to `closeFn`. */
  lemma ValuesOfSkip<U>(q: seq<Outcome<U>>, i: nat)
    requires i < |q| && !(q[i].Done? && q[i].value.Val?)
    ensures ValuesOf(q) == ValuesOf(q[..i]) + ValuesOf(q[i + 1..])
  {
    var one := [q[i]];
    assert ValuesOf(one) == [];
    assert q == (q[..i] + one) + q[i + 1..];
    ValuesOfConcat(q[..i] + one, q[i + 1..]);
    ValuesOfConcat(q[..i], one);
    assert ValuesOf(q[..i] + one) == ValuesOf(q[..i]);
  }
}
