/** PartiallyEagerAsyncIterator: the look-ahead iterator behind the
    "ahead" combinators. It keeps a FIFO queue of up to `executeAhead`
    mapped results pulled before the consumer asks for them.

    The fair lock only serialises the bodies below, so they are modelled as
    sequential state transitions. The epoch is reduced to a `terminated`
    flag: it admits entries until close terminates it. The asynchronous
    trampoline driving the fill loop becomes an ordinary recursion (and a
    loop in `NextFutureLoop`). */
module Eager {
  import opened Futures
  import opened Steps
  import opened Sources

  /** The state of a PartiallyEagerAsyncIterator. `closedItems` logs, in
      order, every value handed to `closeFn`. */
  datatype Eager<!T, !U> = Eager(
    backing: Source<T>,
    executeAhead: int,
    mapping: Step<T> -> Call<Outcome<U>>,
    closeFn: U -> Call<Status>,
    queue: seq<Outcome<U>>,
    terminated: bool,
    closedItems: seq<U>)

  /** The constructor: an empty queue and an open epoch; nothing is pulled. */
  function NewEager<T, U>(backing: Source<T>, executeAhead: int,
                          mapping: Step<T> -> Call<Outcome<U>>,
                          closeFn: U -> Call<Status>): (r: Eager<T, U>)
    ensures r.backing == backing && r.executeAhead == executeAhead
    ensures r.mapping == mapping && r.closeFn == closeFn
    ensures r.queue == [] && !r.terminated && r.closedItems == []
  {
    Eager(backing, executeAhead, mapping, closeFn, [], false, [])
  }

  /** How many entries the queue can hold: the queue is only ever extended
      while its size is below `executeAhead`. */
  function Cap<T, U>(s: Eager<T, U>): nat {
    if s.executeAhead < 0 then 0 else s.executeAhead
  }

  /** The queue never holds more than `executeAhead` entries. */
  ghost predicate Bounded<T, U>(s: Eager<T, U>) {
    |s.queue| <= Cap(s)
  }

  /** What never changes while the iterator runs: the backing iterator's
      behaviour and the configuration. */
  ghost predicate SameSetup<T, U>(a: Eager<T, U>, b: Eager<T, U>) {
    && SameIterator(a.backing, b.backing)
    && a.executeAhead == b.executeAhead
    && a.mapping == b.mapping
    && a.closeFn == b.closeFn
  }

  /** Pulling and filling leave the epoch, the close log and the backing
      close count alone. */
  ghost predicate NoCloseWork<T, U>(a: Eager<T, U>, b: Eager<T, U>) {
    && SameSetup(a, b)
    && a.terminated == b.terminated
    && a.closedItems == b.closedItems
    && a.backing.closes == b.backing.closes
  }

  /** Reference: the stage of the backing pull numbered `k`, a synchronous
      throw already converted into a failed stage. */
  function PulledAt<T, U>(s: Eager<T, U>, k: nat): Outcome<T> {
    ConvertSynchronousException(s.backing.script(k))
  }

  /** Reference: the queue entry the backing pull numbered `k` gives rise
      to, `nxt.thenCompose(mappingFn)`. */
  function MappedAt<T, U>(s: Eager<T, U>, k: nat): Outcome<U> {
    PulledAt(s, k).Then(s.mapping)
  }

  /** One guarded pull of the backing iterator. */
  function Pull<T, U>(s: Eager<T, U>): (r: (Outcome<T>, Source<T>))
    ensures r.0 == PulledAt(s, s.backing.pulls)
    ensures SameIterator(s.backing, r.1)
    ensures r.1.pulls == s.backing.pulls + 1 && r.1.closes == s.backing.closes
  {
    var (c, b) := Next(s.backing);
    (ConvertSynchronousException(c), b)
  }

  /** fillMore: with `executeAhead` entries already pending, report the end
      without pulling; otherwise pull once, enqueue the mapped stage and
      report what the backing iterator produced. */
  function FillMore<T, U>(s: Eager<T, U>): (r: (Outcome<T>, Eager<T, U>))
    ensures |s.queue| >= s.executeAhead ==> IsEnd(r.0) && r.1 == s
    ensures |s.queue| < s.executeAhead ==>
      && r.0 == PulledAt(s, s.backing.pulls)
      && r.1.backing.pulls == s.backing.pulls + 1
      && r.1.queue == s.queue + [MappedAt(s, s.backing.pulls)]
    ensures NoCloseWork(s, r.1)
    ensures Bounded(s) ==> Bounded(r.1)
  {
    if |s.queue| >= s.executeAhead then (EndFuture(), s)
    else
      var (nxt, b) := Pull(s);
      (nxt, s.(backing := b, queue := s.queue + [nxt.Then(s.mapping)]))
  }

  /** attachListener: the caller is bound to the queue head if there is one,
      and a fillMore follows; with an empty queue the caller is bound to a
      fresh pull, mapped but not enqueued. The first component is the backing
      stage that decides whether filling goes on, the second what the caller
      receives. */
  function AttachListener<T, U>(s: Eager<T, U>): (r: (Outcome<T>, Outcome<U>, Eager<T, U>))
    ensures |s.queue| == 0 ==>
      && r.0 == PulledAt(s, s.backing.pulls)
      && r.1 == MappedAt(s, s.backing.pulls)
      && r.2.backing.pulls == s.backing.pulls + 1
      && r.2.queue == []
    ensures |s.queue| > 0 ==> r.1 == s.queue[0]
    ensures |s.queue| > 0 && |s.queue| - 1 >= s.executeAhead ==>
      && IsEnd(r.0)
      && r.2.backing.pulls == s.backing.pulls
      && r.2.queue == s.queue[1..]
    ensures |s.queue| > 0 && |s.queue| - 1 < s.executeAhead ==>
      && r.0 == PulledAt(s, s.backing.pulls)
      && r.2.backing.pulls == s.backing.pulls + 1
      && r.2.queue == s.queue[1..] + [MappedAt(s, s.backing.pulls)]
    ensures NoCloseWork(s, r.2)
    ensures Bounded(s) ==> Bounded(r.2)
  {
    if |s.queue| == 0 then
      var (nxt, b) := Pull(s);
      (nxt, nxt.Then(s.mapping), s.(backing := b))
    else
      var (next, s1) := FillMore(s.(queue := s.queue[1..]));
      (next, s.queue[0], s1)
  }

  /** The rest of the asyncWhile loop in nextFutureImpl once the caller is
      connected: fillMore again as long as the backing stage it returns is
      a value or a failure (failures are enqueued like values); stop on the
      end marker, which fillMore also reports once the queue is full. */
  function FillLoop<T, U>(s: Eager<T, U>): (r: Eager<T, U>)
    ensures NoCloseWork(s, r)
    ensures r.backing.pulls >= s.backing.pulls
    ensures |r.queue| == |s.queue| + (r.backing.pulls - s.backing.pulls)
    ensures Bounded(s) ==> Bounded(r)
    decreases Cap(s) - |s.queue|
  {
    var (next, s1) := FillMore(s);
    if IsEnd(next) then s1 else FillLoop(s1)
  }

  /** What the fill loop leaves behind: the old queue followed by one mapped
      entry per backing pull, in pull order. */
  lemma {:induction false} FillLoopEntries<T, U>(s: Eager<T, U>)
    ensures var r := FillLoop(s);
      && r.queue[..|s.queue|] == s.queue
      && forall k :: s.backing.pulls <= k < r.backing.pulls ==>
           r.queue[|s.queue| + (k - s.backing.pulls)] == MappedAt(s, k)
    decreases Cap(s) - |s.queue|
  {
    var (next, s1) := FillMore(s);
    if !IsEnd(next) {
      var r := FillLoop(s1);
      assert r == FillLoop(s);
      FillLoopEntries(s1);
      assert forall k: nat :: MappedAt(s1, k) == MappedAt(s, k) by {
        assert s1.backing.script == s.backing.script && s1.mapping == s.mapping;
      }
      assert r.queue[..|s.queue|] == r.queue[..|s1.queue|][..|s.queue|];
      assert r.queue[|s.queue|] == r.queue[..|s1.queue|][|s.queue|];
    }
  }

  /** Why the fill loop stopped: every backing pull it made but the last
      produced a value or a failure, and it stopped because the queue was
      full or the last pull reported the end. */
  lemma {:induction false} FillLoopStops<T, U>(s: Eager<T, U>)
    ensures var r := FillLoop(s);
      && (forall k :: s.backing.pulls <= k < r.backing.pulls - 1 ==> !IsEnd(PulledAt(s, k)))
      && (|r.queue| >= r.executeAhead
          || (r.backing.pulls > s.backing.pulls && IsEnd(PulledAt(s, r.backing.pulls - 1))))
    decreases Cap(s) - |s.queue|
  {
    var (next, s1) := FillMore(s);
    if !IsEnd(next) {
      assert FillLoop(s1) == FillLoop(s);
      FillLoopStops(s1);
      assert forall k: nat :: PulledAt(s1, k) == PulledAt(s, k) by {
        assert s1.backing.script == s.backing.script;
      }
    }
  }

  /** nextFutureImpl: attach the caller, then keep filling. Returns what the
      caller receives and the new state. */
  function NextFutureImpl<T, U>(s: Eager<T, U>): (r: (Outcome<U>, Eager<T, U>))
    ensures r.0 == if |s.queue| == 0 then MappedAt(s, s.backing.pulls) else s.queue[0]
    ensures NoCloseWork(s, r.1)
    ensures Bounded(s) ==> Bounded(r.1)
  {
    var (next, delivered, s1) := AttachListener(s);
    if IsEnd(next) then (delivered, s1) else (delivered, FillLoop(s1))
  }

  /** The asyncWhile driver of nextFutureImpl written as the loop it stands
      for, with the `connected` flag of the source: the first round attaches
      the caller, later rounds fill; the loop goes on while the round's
      backing stage is not the end marker. It computes NextFutureImpl. */
  method NextFutureLoop<T, U>(s: Eager<T, U>) returns (delivered: Outcome<U>, s': Eager<T, U>)
    ensures delivered == NextFutureImpl(s).0
    ensures s' == NextFutureImpl(s).1
  {
    var connected := false;
    var cur := s;
    delivered := EndFuture();
    var more := true;
    while more
      invariant !connected ==> cur == s && more
      invariant connected && more ==> NextFutureImpl(s) == (delivered, FillLoop(cur))
      invariant connected && !more ==> NextFutureImpl(s) == (delivered, cur)
      decreases more, (if connected then 0 else 1) + Cap(cur) - |cur.queue|
    {
      var next: Outcome<T>;
      if connected {
        var step := FillMore(cur);
        next, cur := step.0, step.1;
      } else {
        connected := true;
        var step := AttachListener(cur);
        next, delivered, cur := step.0, step.1, step.2;
      }
      more := !IsEnd(next);
    }
    s' := cur;
  }

  /** nextFuture: the epoch gate. Once close has terminated the epoch the
      end future is returned and nothing is touched; otherwise
      nextFutureImpl runs. */
  function NextFuture<T, U>(s: Eager<T, U>): (r: (Outcome<U>, Eager<T, U>))
    ensures s.terminated ==> IsEnd(r.0) && r.1 == s
    ensures !s.terminated ==>
      r.0 == if |s.queue| == 0 then MappedAt(s, s.backing.pulls) else s.queue[0]
    ensures NoCloseWork(s, r.1)
    ensures Bounded(s) ==> Bounded(r.1)
  {
    if s.terminated then (EndFuture(), s) else NextFutureImpl(s)
  }

  /** Reference: the values of the entries that completed with a value, in
      queue order; entries holding the end marker or a failure contribute
      nothing. */
  function ValuesOf<U>(q: seq<Outcome<U>>): (r: seq<U>)
    ensures |r| <= |q|
    ensures forall i :: 0 <= i < |q| && q[i].Done? && q[i].value.Val? ==> q[i].value.value in r
    ensures forall u :: u in r ==> Done(Val(u)) in q
    ensures |q| == 1 && q[0].Done? && q[0].value.Val? ==> r == [q[0].value.value]
    ensures |q| == 1 && !(q[0].Done? && q[0].value.Val?) ==> r == []
  {
    if |q| == 0 then []
    else
      var rest := ValuesOf(q[1..]);
      assert forall i :: 1 <= i < |q| ==> q[i] == q[1..][i - 1];
      match q[0]
      case Done(Val(u)) => [u] + rest
      case _ => rest
  }

  /** The close of one pending entry: `f.thenCompose(either -> either.fold(
      end -> voidFuture, closeFn))`, with `closeFn` wrapped by
      convertSynchronousException as the constructor does. */
  function EntryClose<U>(entry: Outcome<U>, closeFn: U -> Call<Status>): (r: Status)
    ensures entry.Failed? ==> r == Failed(entry.error)
    ensures entry.Done? && entry.value.End? ==> r == Ok
    ensures entry.Done? && entry.value.Val? ==> r == ConvertSynchronousException(closeFn(entry.value.value))
  {
    entry.Then((either: Step<U>) =>
      match either
      case End => Returned(Ok)
      case Val(u) => Returned(ConvertSynchronousException(closeFn(u))))
  }

  /** The item-close phase of close: every pending entry is closed (all of
      them are attempted), and `allOf` over the completed closes reports the
      first failing one. Also returns the values handed to `closeFn`. */
  function ItemsClose<U>(q: seq<Outcome<U>>, closeFn: U -> Call<Status>): (r: (Status, seq<U>))
    ensures r.1 == ValuesOf(q)
    ensures r.0 == Ok <==> forall i :: 0 <= i < |q| ==> EntryClose(q[i], closeFn) == Ok
    ensures r.0.Failed? ==>
      exists i :: 0 <= i < |q| && EntryClose(q[i], closeFn) == r.0
        && forall j :: 0 <= j < i ==> EntryClose(q[j], closeFn) == Ok
  {
    if |q| == 0 then (Ok, [])
    else
      var first := EntryClose(q[0], closeFn);
      var (rest, closed) := ItemsClose(q[1..], closeFn);
      assert forall i :: 1 <= i < |q| ==> q[i] == q[1..][i - 1];
      assert first.Done? ==> first.value == ();
      var logged := match q[0] case Done(Val(u)) => [u] case _ => [];
      (if first.Failed? then first else rest, logged + closed)
  }

  /** close: terminate the epoch (its outcome `epochResult` comes from the
      epoch, which is not part of this model), close every pending entry,
      then close the backing iterator, always; report the epoch error, else
      the item-close error, else the backing close error, else success. The
      queue is left as it was. */
  function Close<T, U>(s: Eager<T, U>, epochResult: Status): (r: (Status, Eager<T, U>))
    ensures r.1.terminated
    ensures r.1.backing.closes == s.backing.closes + 1
    ensures r.1.backing.pulls == s.backing.pulls
    ensures SameSetup(s, r.1) && r.1.queue == s.queue
    ensures r.1.closedItems == s.closedItems + ValuesOf(s.queue)
    ensures r.0 == FirstFailure([epochResult, ItemsClose(s.queue, s.closeFn).0,
                                 ConvertSynchronousException(s.backing.closeCall)])
  {
    var (itemsResult, closed) := ItemsClose(s.queue, s.closeFn);
    var (bc, b) := CloseSource(s.backing);
    var backingResult := ConvertSynchronousException(bc);
    assert epochResult.Done? ==> epochResult.value == ();
    assert itemsResult.Done? ==> itemsResult.value == ();
    assert backingResult.Done? ==> backingResult.value == ();
    var ss := [epochResult, itemsResult, backingResult];
    assert ss[1..] == [itemsResult, backingResult] && ss[1..][1..] == [backingResult];
    assert FirstFailure([backingResult]) == backingResult by {
      assert [backingResult][1..] == [];
    }
    var result :=
      if epochResult.Failed? then epochResult
      else if itemsResult.Failed? then itemsResult
      else if backingResult.Failed? then backingResult
      else Ok;
    (result, s.(backing := b, terminated := true, closedItems := s.closedItems + closed))
  }
}
