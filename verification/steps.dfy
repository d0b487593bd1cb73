/** Step results of an asynchronous iterator: `Either<End, T>`, and the
    completed stage that carries one. */
module Steps {
  import opened Futures

  /** Either<AsyncIterator.End, T>: the iterator is exhausted, or produced a value. */
  datatype Step<+T> = End | Val(value: T) {

    /** Either.map with a mapping function that may throw. */
    function Map<U>(f: T -> Call<U>): (r: Call<Step<U>>)
      ensures End? ==> r == Returned(End)
      ensures Val? ==> (r.Returned? <==> f(value).Returned?)
      ensures Val? && f(value).Returned? ==> r == Returned(Val(f(value).value))
      ensures Val? && f(value).Threw? ==> r == Threw(f(value).error)
    {
      match this
      case End => Returned(End)
      case Val(t) =>
        match f(t)
        case Returned(u) => Returned(Val(u))
        case Threw(e) => Threw(e)
    }
  }

  /** The completed CompletionStage<Either<End, T>> returned by nextFuture. */
  type Outcome<T> = Stage<Step<T>>

  /** The completed stage reports the end of iteration. */
  predicate IsEnd<T>(o: Outcome<T>) {
    o.Done? && o.value.End?
  }

  /** end(): the shared end-of-iteration marker. */
  function EndMarker<T>(): (r: Step<T>)
    ensures r.End? && !r.Val?
  {
    End
  }

  /** endFuture(): an already completed stage holding the end marker. */
  function EndFuture<T>(): (r: Outcome<T>)
    ensures IsEnd(r)
  {
    Done(EndMarker())
  }

  /** zipWith: combine two step results with `f` when both produced a value;
      otherwise the result is the end marker and `f` is not consulted. A
      throw from `f` throws out of zipWith. */
  function ZipWith<T, U, V>(et: Step<T>, eu: Step<U>, f: (T, U) -> Call<V>): (r: Call<Step<V>>)
    ensures r == Returned(End) <==> et.End? || eu.End?
    ensures et.Val? && eu.Val? ==>
      match f(et.value, eu.value)
      case Returned(v) => r == Returned(Val(v))
      case Threw(e) => r == Threw(e)
  {
    match et
    case End => Returned(EndMarker())
    case Val(t) =>
      match eu
      case End => Returned(EndMarker())
      case Val(u) =>
        match f(t, u)
        case Returned(v) => Returned(Val(v))
        case Threw(e) => Threw(e)
  }

  /** zipWith never consults `f` unless both sides produced a value: two
      different combining functions give the same result on such inputs. */
  lemma ZipWithEndIgnoresFunction<T, U, V>(et: Step<T>, eu: Step<U>,
                                           f: (T, U) -> Call<V>, g: (T, U) -> Call<V>)
    requires et.End? || eu.End?
    ensures ZipWith(et, eu, f) == ZipWith(et, eu, g) == Returned(End)
  {
  }

  /** Against a value on the right, zipWith is Either.map of the left side
      with the right value fixed: the two folds of zipWith agree with one map. */
  lemma ZipWithValueIsMap<T, U, V>(et: Step<T>, u: U, f: (T, U) -> Call<V>)
    ensures ZipWith(et, Val(u), f) == et.Map((t: T) => f(t, u))
  {
  }
}
