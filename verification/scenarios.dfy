/** The look-ahead scenario of the close tests, over a backing iterator that
    behaves like range(lo, hi) and a mapping that adds one to every value. */
module Scenarios {
  import opened Futures
  import opened Steps
  import opened Sources
  import opened Eager
  import opened EagerProperties

  /** A fresh backing iterator producing lo, lo + 1, ..., hi - 1 and then the
      end marker on every call; its close completes normally. */
  function Range(lo: int, hi: int): (r: Source<int>)
    ensures r.pulls == 0 && r.closes == 0
  {
    Source((k: nat) => if lo + k < hi then Returned(Done(Val(lo + k))) else Returned(EndFuture()),
           0, Returned(Ok), 0)
  }

  /** The look-ahead mapping for `i -> completedStage(i + 1)`. */
  function PlusOne(either: Step<int>): Call<Outcome<int>> {
    match either
    case End => Returned(EndFuture())
    case Val(i) => Returned(Done(Val(i + 1)))
  }

  /** An item close that completes normally. */
  function CloseOk(u: int): Call<Status> {
    Returned(Ok)
  }

  /** thenComposeAhead(i -> completedStage(i + 1), 5) over range(0, 15),
      before any call. */
  function AheadFive(): Eager<int, int> {
    NewEager(Range(0, 15), 5, PlusOne, CloseOk)
  }

  /** The first nextFuture delivers 1 after exactly 6 backing pulls, 5
      prefetched and 1 delivered, and leaves the results 2..6 queued. */
  lemma AheadFiveFirstCall()
    ensures NextFuture(AheadFive()).0 == Done(Val(1))
    ensures NextFuture(AheadFive()).1.backing.pulls == 6
    ensures NextFuture(AheadFive()).1.queue ==
      [Done(Val(2)), Done(Val(3)), Done(Val(4)), Done(Val(5)), Done(Val(6))]
  {
    var s0 := AheadFive();
    NewEagerCoherent(Range(0, 15), 5, PlusOne, CloseOk);
    assert forall k: nat :: k < 15 ==> MappedAt(s0, k) == Done(Val(k + 1));
    FirstNextFuturePrefetches(s0);
    NextFutureInOrder(s0);
    var s1 := NextFuture(s0).1;
    assert s1.backing.script == s0.backing.script && s1.mapping == s0.mapping;
    forall i | 0 <= i < 5 ensures s1.queue[i] == Done(Val(i + 2)) {
      assert s1.queue[i] == MappedAt(s1, 1 + i);
    }
  }

  /** The state the first call leaves behind, as far as close cares. */
  ghost predicate AfterFirstCall(s1: Eager<int, int>) {
    && |s1.queue| == 5
    && (forall i :: 0 <= i < 5 ==> s1.queue[i] == Done(Val(i + 2)))
    && s1.closeFn == CloseOk && s1.closedItems == [] && !s1.terminated
    && s1.backing.closeCall == Returned(Ok) && s1.backing.closes == 0
    && s1.backing.pulls == 6
  }

  lemma AheadFiveReachesAfterFirstCall()
    ensures AfterFirstCall(NextFuture(AheadFive()).1)
  {
    AheadFiveFirstCall();
  }

  /** Closing after that first call succeeds, closes the backing iterator
      once, and a later nextFuture gives the end future without pulling. */
  lemma AheadFiveClose(s1: Eager<int, int>)
    requires AfterFirstCall(s1)
    ensures Close(s1, Ok).0 == Ok
    ensures Close(s1, Ok).1.backing.closes == 1
    ensures IsEnd(NextFuture(Close(s1, Ok).1).0)
    ensures NextFuture(Close(s1, Ok).1).1.backing.pulls == 6
  {
    CloseSucceedsIff(s1, Ok);
  }

  /** That close hands exactly the five prefetched values 2, 3, 4, 5, 6 to
      the item close, in queue order. */
  lemma AheadFiveCloseLog(s1: Eager<int, int>)
    requires AfterFirstCall(s1)
    ensures Close(s1, Ok).1.closedItems == [2, 3, 4, 5, 6]
  {
    ValuesOfAllValues(s1.queue);
    var vs := ValuesOf(s1.queue);
    assert vs == [2, 3, 4, 5, 6] by {
      assert forall i :: 0 <= i < 5 ==> vs[i] == i + 2;
    }
  }
}
