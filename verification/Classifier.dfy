/** `classifyDependencyError`: from an error tree to a public dependency status. */
module Classifier {
  import opened Wrappers
  import opened GoErrors

  /** The three failure statuses; each is published with its own error code. */
  datatype FailureStatus = Timeout | InvalidReply | Unavailable

  function Classify(err: Error): FailureStatus {
    if Is(err, DeadlineExceeded) then Timeout
    else if AsNetError(err) == Some(true) then Timeout
    else if Is(err, InvalidResponse) then InvalidReply
    else Unavailable
  }

  /** A deadline anywhere in the tree, or a first `net.Error` in pre-order that reports a timeout. */
  ghost predicate TimedOut(err: Error) {
    || Mentions(PreOrder(err), DeadlineExceeded)
    || exists i :: FirstNetError(PreOrder(err), i) && PreOrder(err)[i].timeout == Some(true)
  }

  /** Timeout beats an invalid response, which beats unavailability. */
  lemma ClassifyMeans(err: Error)
    ensures Classify(err) == Timeout <==> TimedOut(err)
    ensures Classify(err) == InvalidReply <==> !TimedOut(err) && Mentions(PreOrder(err), InvalidResponse)
    ensures Classify(err) == Unavailable <==> !TimedOut(err) && !Mentions(PreOrder(err), InvalidResponse)
  {
    var list := PreOrder(err);
    IsSearchesTree(err, DeadlineExceeded);
    IsSearchesTree(err, InvalidResponse);
    AsFindsFirst(err);
    if i :| FirstNetError(list, i) && list[i].timeout == Some(true) {
      assert FirstAnswer(list, Some(true));
      FirstAnswerUnique(list, AsNetError(err), Some(true));
    }
  }

  lemma WrapKeepsClass(cause: Error)
    ensures Classify(Wrap(cause)) == Classify(cause)
  {
    WrapIsTransparent(cause, DeadlineExceeded);
    WrapIsTransparent(cause, InvalidResponse);
  }

  /** Errors built around the sentinel alone carry no timeout and land in the class of the sentinel. */
  lemma WrappedSentinelClass()
    ensures Classify(Wrap(Sentinel(InvalidResponse))) == InvalidReply
    ensures Classify(Wrap(Sentinel(UnexpectedStatus))) == Unavailable
  {
    WrapKeepsClass(Sentinel(InvalidResponse));
    WrapKeepsClass(Sentinel(UnexpectedStatus));
  }

  /** `errors.Join` of two errors. */
  function Join(a: Error, b: Error): Error { Error(Other(0), {}, None, [a, b]) }

  lemma JoinSearches(a: Error, b: Error, target: Identity)
    requires target != Other(0)
    ensures Is(Join(a, b), target) <==> Is(a, target) || Is(b, target)
    ensures AsNetError(Join(a, b)) == if AsNetError(a).Some? then AsNetError(a) else AsNetError(b)
  {
    var es, e := [a, b], Join(a, b);
    assert es[1..] == [b] && [b][1..] == [];
    assert IsAny(es[1..], target) <==> Is(b, target) || IsAny([], target);
    assert AsNetErrorAny(es[1..]) == AsNetError(b) by { assert AsNetErrorAny([b][1..]) == None; }
    assert e.unwrap == es && !Matches(e, target);
    assert Is(e, target) <==> IsAny(es, target);
    assert AsNetError(e) == AsNetErrorAny(es);
  }

  /**
   A timed-out `net.Error` does not always make a timeout: joined behind a `net.Error` that did not time
   out it is never asked, so the order of joining decides the published status.
   */
  lemma JoinOrderMatters(refused: Error, slow: Error)
    requires AsNetError(refused) == Some(false) && AsNetError(slow) == Some(true)
    requires !Is(refused, DeadlineExceeded) && !Is(slow, DeadlineExceeded)
    ensures Classify(Join(slow, refused)) == Timeout
    ensures Classify(Join(refused, slow)) != Timeout
  {
    JoinSearches(slow, refused, DeadlineExceeded);
    JoinSearches(refused, slow, DeadlineExceeded);
  }

  /**
   When the order of joining decides the class: neither error is a passed deadline, and the first `net.Error`
   of the one ran out of time while that of the other did not.
   */
  lemma JoinOrderMattersIff(a: Error, b: Error)
    ensures Classify(Join(a, b)) != Classify(Join(b, a)) <==>
      && !Is(a, DeadlineExceeded) && !Is(b, DeadlineExceeded)
      && AsNetError(a).Some? && AsNetError(b).Some? && AsNetError(a) != AsNetError(b)
  {
    JoinSearches(a, b, DeadlineExceeded);
    JoinSearches(b, a, DeadlineExceeded);
    JoinSearches(a, b, InvalidResponse);
    JoinSearches(b, a, InvalidResponse);
    var ab, ba := Join(a, b), Join(b, a);
    assert Is(ab, DeadlineExceeded) == Is(ba, DeadlineExceeded) && Is(ab, InvalidResponse) == Is(ba, InvalidResponse);
    match (AsNetError(a), AsNetError(b))
    case (Some(x), Some(y)) => assert AsNetError(ab) == Some(x) && AsNetError(ba) == Some(y);
    case _ => assert AsNetError(ab) == AsNetError(ba);
  }
}
