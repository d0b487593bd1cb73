/** The stateless combinators thenApply and thenCompose. Each wraps a
    backing iterator, pulls it once per pull of its own, maps or passes the
    end marker through, and forwards close unchanged. The executor variants
    differ only in where the callback runs, which a model of completed
    stages cannot observe. */
module Combinators {
  import opened Futures
  import opened Steps
  import opened Sources

  /** The iterator returned by thenApplyImpl. */
  datatype Applied<!T, U> = Applied(it: Source<T>, f: T -> Call<U>)

  /** The iterator returned by thenComposeImpl; `f` yields a stage or throws. */
  datatype Composed<!T, U> = Composed(it: Source<T>, f: T -> Call<Stage<U>>)

  /** thenApplyImpl: construction wraps the backing iterator and pulls nothing. */
  function ThenApply<T, U>(it: Source<T>, f: T -> Call<U>): (r: Applied<T, U>)
    ensures r.it.pulls == it.pulls && r.it.closes == it.closes
    ensures SameIterator(it, r.it)
  {
    Applied(it, f)
  }

  /** thenComposeImpl: construction wraps the backing iterator and pulls nothing. */
  function ThenCompose<T, U>(it: Source<T>, f: T -> Call<Stage<U>>): (r: Composed<T, U>)
    ensures r.it.pulls == it.pulls && r.it.closes == it.closes
    ensures SameIterator(it, r.it)
  {
    Composed(it, f)
  }

  /** What thenApply makes of one upstream stage: `either.map(f)` inside
      thenApply. */
  function ApplyOutcome<T, U>(o: Outcome<T>, f: T -> Call<U>): (r: Outcome<U>)
    ensures IsEnd(r) <==> IsEnd(o)
    ensures o.Failed? ==> r == Failed(o.error)
    ensures o.Done? && o.value.Val? ==>
      match f(o.value.value)
      case Returned(u) => r == Done(Val(u))
      case Threw(e) => r == Failed(e)
  {
    o.Map((either: Step<T>) => either.Map(f))
  }

  /** What thenCompose makes of one upstream stage: the end marker becomes
      endFuture(), a value becomes `f(t)` wrapped as a value. */
  function ComposeOutcome<T, U>(o: Outcome<T>, f: T -> Call<Stage<U>>): (r: Outcome<U>)
    ensures IsEnd(r) <==> IsEnd(o)
    ensures o.Failed? ==> r == Failed(o.error)
    ensures o.Done? && o.value.Val? ==>
      match f(o.value.value)
      case Returned(Done(u)) => r == Done(Val(u))
      case Returned(Failed(e)) => r == Failed(e)
      case Threw(e) => r == Failed(e)
  {
    o.Then((nt: Step<T>) =>
      match nt
      case End => Returned(EndFuture())
      case Val(t) =>
        match f(t)
        case Returned(st) => Returned(st.Map((u: U) => Returned(Val(u))))
        case Threw(e) => Threw(e))
  }

  /** The end marker passes through both combinators without consulting the
      user function: any two functions give the same result. */
  lemma EndIgnoresFunction<T, U>(o: Outcome<T>, f: T -> Call<U>, g: T -> Call<U>,
                                 h: T -> Call<Stage<U>>, k: T -> Call<Stage<U>>)
    requires !(o.Done? && o.value.Val?)
    ensures ApplyOutcome(o, f) == ApplyOutcome(o, g)
    ensures ComposeOutcome(o, h) == ComposeOutcome(o, k)
  {
  }

  /** thenApply's nextFuture: exactly one upstream nextFuture. An upstream
      that throws synchronously throws through; otherwise its stage is mapped. */
  function AppliedNext<T, U>(a: Applied<T, U>): (r: (Call<Outcome<U>>, Applied<T, U>))
    ensures r.1.it.pulls == a.it.pulls + 1 && r.1.it.closes == a.it.closes
    ensures SameIterator(a.it, r.1.it) && r.1.f == a.f
    ensures match a.it.script(a.it.pulls)
      case Threw(e) => r.0 == Threw(e)
      case Returned(o) => r.0 == Returned(ApplyOutcome(o, a.f))
  {
    var (c, it1) := Next(a.it);
    var out := match c
      case Threw(e) => Threw(e)
      case Returned(o) => Returned(ApplyOutcome(o, a.f));
    (out, a.(it := it1))
  }

  /** thenCompose's nextFuture: exactly one upstream nextFuture. */
  function ComposedNext<T, U>(a: Composed<T, U>): (r: (Call<Outcome<U>>, Composed<T, U>))
    ensures r.1.it.pulls == a.it.pulls + 1 && r.1.it.closes == a.it.closes
    ensures SameIterator(a.it, r.1.it) && r.1.f == a.f
    ensures match a.it.script(a.it.pulls)
      case Threw(e) => r.0 == Threw(e)
      case Returned(o) => r.0 == Returned(ComposeOutcome(o, a.f))
  {
    var (c, it1) := Next(a.it);
    var out := match c
      case Threw(e) => Threw(e)
      case Returned(o) => Returned(ComposeOutcome(o, a.f));
    (out, a.(it := it1))
  }

  /** thenApply's close is the backing iterator's close: same result, one
      backing close, no pull. */
  function AppliedClose<T, U>(a: Applied<T, U>): (r: (Call<Status>, Applied<T, U>))
    ensures r.0 == a.it.closeCall
    ensures r.1.it.closes == a.it.closes + 1 && r.1.it.pulls == a.it.pulls
    ensures SameIterator(a.it, r.1.it) && r.1.f == a.f
  {
    var (c, it1) := CloseSource(a.it);
    (c, a.(it := it1))
  }

  /** thenCompose's close is the backing iterator's close. */
  function ComposedClose<T, U>(a: Composed<T, U>): (r: (Call<Status>, Composed<T, U>))
    ensures r.0 == a.it.closeCall
    ensures r.1.it.closes == a.it.closes + 1 && r.1.it.pulls == a.it.pulls
    ensures SameIterator(a.it, r.1.it) && r.1.f == a.f
  {
    var (c, it1) := CloseSource(a.it);
    (c, a.(it := it1))
  }

  /** `n` consecutive pulls of a thenApply iterator. */
  function DrainApplied<T, U>(a: Applied<T, U>, n: nat): (r: (seq<Call<Outcome<U>>>, Applied<T, U>))
    ensures |r.0| == n
    decreases n
  {
    if n == 0 then ([], a)
    else
      var (c, a1) := AppliedNext(a);
      var (cs, a2) := DrainApplied(a1, n - 1);
      ([c] + cs, a2)
  }

  /** What thenApply makes of one upstream nextFuture call. */
  function ApplyCall<T, U>(c: Call<Outcome<T>>, f: T -> Call<U>): Call<Outcome<U>> {
    match c
    case Threw(e) => Threw(e)
    case Returned(o) => Returned(ApplyOutcome(o, f))
  }

  /** `n` pulls of thenApply(it, f) make exactly `n` pulls of `it`, no close,
      and deliver, in order, the upstream results mapped one by one. */
  lemma {:induction false} AppliedDrainMatchesUpstream<T, U>(a: Applied<T, U>, n: nat)
    ensures var (outs, a') := DrainApplied(a, n);
      && a'.it.pulls == a.it.pulls + n
      && a'.it.closes == a.it.closes
      && SameIterator(a.it, a'.it)
      && a'.f == a.f
      && forall i :: 0 <= i < n ==> outs[i] == ApplyCall(a.it.script(a.it.pulls + i), a.f)
    decreases n
  {
    if n > 0 {
      var (c, a1) := AppliedNext(a);
      AppliedDrainMatchesUpstream(a1, n - 1);
      var (cs, a2) := DrainApplied(a1, n - 1);
      assert DrainApplied(a, n) == ([c] + cs, a2);
      assert forall i :: 1 <= i < n ==> ([c] + cs)[i] == cs[i - 1];
    }
  }

  /** `n` consecutive pulls of a thenCompose iterator. */
  function DrainComposed<T, U>(a: Composed<T, U>, n: nat): (r: (seq<Call<Outcome<U>>>, Composed<T, U>))
    ensures |r.0| == n
    decreases n
  {
    if n == 0 then ([], a)
    else
      var (c, a1) := ComposedNext(a);
      var (cs, a2) := DrainComposed(a1, n - 1);
      ([c] + cs, a2)
  }

  /** What thenCompose makes of one upstream nextFuture call. */
  function ComposeCall<T, U>(c: Call<Outcome<T>>, f: T -> Call<Stage<U>>): Call<Outcome<U>> {
    match c
    case Threw(e) => Threw(e)
    case Returned(o) => Returned(ComposeOutcome(o, f))
  }

  /** `n` pulls of thenCompose(it, f) make exactly `n` pulls of `it`, no
      close, and deliver, in order, the upstream results composed one by one. */
  lemma {:induction false} ComposedDrainMatchesUpstream<T, U>(a: Composed<T, U>, n: nat)
    ensures var (outs, a') := DrainComposed(a, n);
      && a'.it.pulls == a.it.pulls + n
      && a'.it.closes == a.it.closes
      && SameIterator(a.it, a'.it)
      && a'.f == a.f
      && forall i :: 0 <= i < n ==> outs[i] == ComposeCall(a.it.script(a.it.pulls + i), a.f)
    decreases n
  {
    if n > 0 {
      var (c, a1) := ComposedNext(a);
      ComposedDrainMatchesUpstream(a1, n - 1);
      var (cs, a2) := DrainComposed(a1, n - 1);
      assert DrainComposed(a, n) == ([c] + cs, a2);
      assert forall i :: 1 <= i < n ==> ([c] + cs)[i] == cs[i - 1];
    }
  }

  /** The laziness test: over a counting iterator, building thenApply pulls
      nothing, and each downstream pull makes exactly one upstream pull. */
  lemma LazyCounting<U>(f: int -> Call<U>)
    ensures var counting := Source((k: nat) => Returned(Done(Val(k + 1))), 0, Returned(Ok), 0);
      && ThenApply(counting, f).it.pulls == 0
      && DrainApplied(ThenApply(counting, f), 1).1.it.pulls == 1
      && DrainApplied(ThenApply(counting, f), 2).1.it.pulls == 2
  {
  }
}
