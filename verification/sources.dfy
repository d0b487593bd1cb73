/** Concrete iterators: a scripted backing iterator standing for any
    AsyncIterator handed to a combinator, the empty iterator, and the
    fail-once iterator. */
module Sources {
  import opened Futures
  import opened Steps

  /** A backing AsyncIterator. Its k-th nextFuture call (counting from 0)
      does what `script(k)` says: return a completed stage or throw. Every
      close call does what `closeCall` says. `pulls` and `closes` count the
      calls made so far. */
  datatype Source<T> = Source(
    script: nat -> Call<Outcome<T>>,
    pulls: nat,
    closeCall: Call<Status>,
    closes: nat)

  /** The backing iterator's behaviour is fixed; only its call counters move. */
  ghost predicate SameIterator<T>(a: Source<T>, b: Source<T>) {
    a.script == b.script && a.closeCall == b.closeCall
  }

  /** One nextFuture call on the backing iterator. */
  function Next<T>(s: Source<T>): (r: (Call<Outcome<T>>, Source<T>))
    ensures r.0 == s.script(s.pulls)
    ensures SameIterator(s, r.1)
    ensures r.1.pulls == s.pulls + 1 && r.1.closes == s.closes
  {
    (s.script(s.pulls), s.(pulls := s.pulls + 1))
  }

  /** One close call on the backing iterator. */
  function CloseSource<T>(s: Source<T>): (r: (Call<Status>, Source<T>))
    ensures r.0 == s.closeCall
    ensures SameIterator(s, r.1)
    ensures r.1.pulls == s.pulls && r.1.closes == s.closes + 1
  {
    (s.closeCall, s.(closes := s.closes + 1))
  }

  /** `n` consecutive nextFuture calls and what each of them did. */
  function Drain<T>(s: Source<T>, n: nat): (r: (seq<Call<Outcome<T>>>, Source<T>))
    ensures |r.0| == n
    ensures forall i :: 0 <= i < n ==> r.0[i] == s.script(s.pulls + i)
    ensures SameIterator(s, r.1)
    ensures r.1.pulls == s.pulls + n && r.1.closes == s.closes
    decreases n
  {
    if n == 0 then ([], s)
    else
      var (c, s1) := Next(s);
      var (cs, s2) := Drain(s1, n - 1);
      ([c] + cs, s2)
  }

  /** EmptyAsyncIterator: every nextFuture is the end future. AsyncIterator's
      default close is not part of this model; it is taken to complete
      normally. */
  function EmptyIterator<T>(): (r: Source<T>)
    ensures r.pulls == 0 && r.closes == 0
    ensures forall k: nat :: r.script(k).Returned? && IsEnd(r.script(k).value)
    ensures r.closeCall == Returned(Ok)
  {
    Source(_ => Returned(EndFuture()), 0, Returned(Ok), 0)
  }

  /** However often it is pulled, the empty iterator reports the end. */
  lemma EmptyAlwaysEnds<T>(n: nat)
    ensures var outs := Drain(EmptyIterator<T>(), n).0;
      forall i :: 0 <= i < n ==> outs[i].Returned? && IsEnd(outs[i].value)
  {
  }

  /** FailOnceAsyncIterator: holds the exception it has yet to report. */
  datatype FailOnce<T> = FailOnce(exception: Option<Error>)

  /** errorOnce(ex): a fail-once iterator that still holds `ex`. */
  function ErrorOnce<T>(ex: Error): (r: FailOnce<T>)
    ensures r.exception == Some(ex)
  {
    FailOnce(Some(ex))
  }

  /** FailOnceAsyncIterator.nextFuture: the held exception is reported once
      as a failed stage and forgotten; afterwards the end future. */
  function FailOnceNext<T>(it: FailOnce<T>): (r: (Outcome<T>, FailOnce<T>))
    ensures it.exception.Some? ==> r.0 == Failed(it.exception.value)
    ensures it.exception.None? ==> IsEnd(r.0)
    ensures r.1.exception == None
  {
    match it.exception
    case Some(e) => (Failed(e), FailOnce(None))
    case None => (EndFuture(), it)
  }

  /** A fail-once iterator that has already reported its exception. */
  function Spent<T>(): FailOnce<T> {
    FailOnce(None)
  }

  /** The outcomes of `n` consecutive nextFuture calls on a fail-once iterator. */
  function DrainFailOnce<T>(it: FailOnce<T>, n: nat): (r: seq<Outcome<T>>)
    ensures |r| == n
    decreases n
  {
    if n == 0 then []
    else
      var (o, it1) := FailOnceNext(it);
      [o] + DrainFailOnce(it1, n - 1)
  }

  /** Reference behaviour of errorOnce(ex): the call numbered 0 fails with
      `ex`, every later call reports the end. */
  function FailOnceScript<T>(ex: Error, k: nat): Outcome<T> {
    if k == 0 then Failed(ex) else EndFuture()
  }

  /** A spent fail-once iterator only ever reports the end. */
  lemma {:induction false} SpentFailOnceEnds<T>(n: nat)
    ensures forall i :: 0 <= i < n ==> DrainFailOnce(Spent<T>(), n)[i] == EndFuture()
    decreases n
  {
    if n > 0 {
      SpentFailOnceEnds<T>(n - 1);
      assert DrainFailOnce(Spent<T>(), n) == [EndFuture()] + DrainFailOnce(Spent<T>(), n - 1);
    }
  }

  /** errorOnce(ex) reports `ex` on the first nextFuture and the end on every
      later one. */
  lemma ErrorOnceSequence<T>(ex: Error, n: nat)
    ensures forall k :: 0 <= k < n ==> DrainFailOnce(ErrorOnce<T>(ex), n)[k] == FailOnceScript(ex, k)
  {
    if n > 0 {
      SpentFailOnceEnds<T>(n - 1);
      assert DrainFailOnce(ErrorOnce<T>(ex), n) == [Failed(ex)] + DrainFailOnce(Spent<T>(), n - 1);
    }
  }
}
