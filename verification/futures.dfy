/** Resolved futures and synchronous calls.

    Every CompletionStage in the iteration core is modelled as already
    completed: normally with a value (`Done`) or exceptionally (`Failed`).
    A synchronous Java call that may throw is a `Call`.
 */
module Futures {

  /** A Java Throwable, identified by its message. */
  datatype Error = Error(message: string)

  datatype Option<+T> = None | Some(value: T)

  /** The result of a synchronous call: it returns a value or throws. */
  datatype Call<+X> = Returned(value: X) | Threw(error: Error)

  /** A completed CompletionStage. */
  datatype Stage<+X> = Done(value: X) | Failed(error: Error) {

    /** CompletionStage.thenApply: the callback runs only on a normal
        completion, and a callback that throws fails the stage. */
    function Map<Y>(f: X -> Call<Y>): (r: Stage<Y>)
      ensures Failed? ==> r == Failed(error)
      ensures Done? && f(value).Returned? ==> r == Done(f(value).value)
      ensures Done? && f(value).Threw? ==> r == Failed(f(value).error)
    {
      match this
      case Failed(e) => Failed(e)
      case Done(x) =>
        match f(x)
        case Returned(y) => Done(y)
        case Threw(e) => Failed(e)
    }

    /** CompletionStage.thenCompose: the callback runs only on a normal
        completion and its stage is the result; a callback that throws
        fails the stage. */
    function Then<Y>(f: X -> Call<Stage<Y>>): (r: Stage<Y>)
      ensures Failed? ==> r == Failed(error)
      ensures Done? ==> r == ConvertSynchronousException(f(value))
    {
      match this
      case Failed(e) => Failed(e)
      case Done(x) => ConvertSynchronousException(f(x))
    }
  }

  /** A completed CompletionStage<Void>. */
  type Status = Stage<()>

  const Ok: Status := Done(())

  /** convertSynchronousException: a supplier that throws yields a failed
      stage carrying the thrown error; otherwise its stage is returned as is. */
  function ConvertSynchronousException<X>(c: Call<Stage<X>>): (r: Stage<X>)
    ensures c.Threw? ==> r == Failed(c.error)
    ensures c.Returned? ==> r == c.value
  {
    match c
    case Returned(st) => st
    case Threw(e) => Failed(e)
  }

  /** Reference definition of "report the first error present": the first
      failed status of `ss` in order, or `Ok` when none failed. */
  function FirstFailure(ss: seq<Status>): (r: Status)
    ensures r == Ok <==> forall i :: 0 <= i < |ss| ==> ss[i] == Ok
    ensures r.Failed? ==>
      exists i :: 0 <= i < |ss| && ss[i] == r && forall j :: 0 <= j < i ==> ss[j] == Ok
  {
    if |ss| == 0 then Ok
    else if ss[0].Failed? then ss[0]
    else
      var rest := FirstFailure(ss[1..]);
      assert ss[0].value == ();
      assert forall i :: 1 <= i < |ss| ==> ss[i] == ss[1..][i - 1];
      assert rest.Failed? ==>
        exists i :: 1 <= i < |ss| && ss[i] == rest && forall j :: 0 <= j < i ==> ss[j] == Ok;
      rest
  }

  /** A status that is not a failure is `Ok`. */
  lemma DoneIsOk(st: Status)
    requires st.Done?
    ensures st == Ok
  {
    assert st.value == ();
  }

  /** The first failure among three statuses, spelled out. */
  lemma FirstFailureOfThree(a: Status, b: Status, c: Status)
    ensures FirstFailure([a, b, c]) ==
      if a.Failed? then a else if b.Failed? then b else if c.Failed? then c else Ok
  {
    assert [a, b, c][1..] == [b, c] && [b, c][1..] == [c] && [c][1..] == [];
    assert FirstFailure([c]) == if c.Failed? then c else FirstFailure([]);
    assert FirstFailure([b, c]) == if b.Failed? then b else FirstFailure([c]);
    assert FirstFailure([a, b, c]) == if a.Failed? then a else FirstFailure([b, c]);
  }
}
