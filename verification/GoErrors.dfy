/**
 Go error values as trees, and the two searches the standard library runs over them.
 */
module GoErrors {
  import opened Wrappers

  /** What `==` on error values can tell apart: the sentinels the code compares against, and everything else. */
  datatype Identity = DeadlineExceeded | InvalidResponse | UnexpectedStatus | EndOfFile | ServerClosed | Other(n: nat)

  /**
   One error value: its identity, the targets its own `Is` method (if any) claims, what `Timeout` answers
   when it is a `net.Error`, and what `Unwrap` yields (none, one or several errors).
   */
  datatype Error = Error(id: Identity, claims: set<Identity>, timeout: Option<bool>, unwrap: seq<Error>)

  /** `errors.New` of a package-level sentinel. */
  function Sentinel(id: Identity): Error { Error(id, {}, None, []) }

  /** `fmt.Errorf` with exactly one `%w`: the operands formatted with `%v` or `%d` leave only text behind. */
  function Wrap(cause: Error): Error { Error(Other(0), {}, None, [cause]) }

  predicate Matches(e: Error, target: Identity) {
    e.id == target || target in e.claims
  }

  /** `errors.Is`. */
  predicate Is(e: Error, target: Identity) {
    Matches(e, target) || IsAny(e.unwrap, target)
  }

  predicate IsAny(es: seq<Error>, target: Identity) {
    es != [] && (Is(es[0], target) || IsAny(es[1..], target))
  }

  /** `errors.As` with a `net.Error` target: what `Timeout` answers on the error found, if one is found. */
  function AsNetError(e: Error): Option<bool> {
    if e.timeout.Some? then e.timeout else AsNetErrorAny(e.unwrap)
  }

  function AsNetErrorAny(es: seq<Error>): Option<bool> {
    if es == [] then None
    else
      var found := AsNetError(es[0]);
      if found.Some? then found else AsNetErrorAny(es[1..])
  }

  // ---------------------------------------------------------------------------------------------
  // The searches, declaratively: the tree read in pre-order
  // ---------------------------------------------------------------------------------------------

  function PreOrder(e: Error): seq<Error> {
    [e] + PreOrderAll(e.unwrap)
  }

  function PreOrderAll(es: seq<Error>): seq<Error> {
    if es == [] then [] else PreOrder(es[0]) + PreOrderAll(es[1..])
  }

  /** Some value in the list matches the target. */
  predicate Mentions(list: seq<Error>, target: Identity) {
    exists i | 0 <= i < |list| :: Matches(list[i], target)
  }

  /** `i` is the position of the first `net.Error` of the list. */
  predicate FirstNetError(list: seq<Error>, i: int) {
    0 <= i < |list| && list[i].timeout.Some? && forall j | 0 <= j < i :: list[j].timeout.None?
  }

  /** `found` is the answer of the first `net.Error` of the list, if it has one. */
  ghost predicate FirstAnswer(list: seq<Error>, found: Option<bool>) {
    match found
    case Some(_) => exists i :: FirstNetError(list, i) && list[i].timeout == found
    case None => forall i | 0 <= i < |list| :: list[i].timeout.None?
  }

  lemma MentionsConcat(a: seq<Error>, b: seq<Error>, target: Identity)
    ensures Mentions(a + b, target) <==> Mentions(a, target) || Mentions(b, target)
  {
    assert forall i | 0 <= i < |a| :: (a + b)[i] == a[i];
    assert forall i | 0 <= i < |b| :: (a + b)[|a| + i] == b[i];
  }

  lemma FirstAnswerConcat(a: seq<Error>, b: seq<Error>, x: Option<bool>, y: Option<bool>)
    requires FirstAnswer(a, x) && FirstAnswer(b, y)
    ensures FirstAnswer(a + b, if x.Some? then x else y)
  {
    if x.Some? {
      var i :| FirstNetError(a, i) && a[i].timeout == x;
      assert FirstNetError(a + b, i) && (a + b)[i].timeout == x;
    } else if y.Some? {
      var i :| FirstNetError(b, i) && b[i].timeout == y;
      assert FirstNetError(a + b, |a| + i) && (a + b)[|a| + i].timeout == y;
    }
  }

  /** `errors.Is` finds a target exactly when some error of the tree, in any branch, matches it. */
  lemma {:induction false} IsSearchesTree(e: Error, target: Identity)
    ensures Is(e, target) <==> Mentions(PreOrder(e), target)
    decreases e, 1
  {
    IsAnySearchesTrees(e.unwrap, target);
    MentionsConcat([e], PreOrderAll(e.unwrap), target);
    assert Mentions([e], target) <==> Matches([e][0], target);
  }

  lemma {:induction false} IsAnySearchesTrees(es: seq<Error>, target: Identity)
    ensures IsAny(es, target) <==> Mentions(PreOrderAll(es), target)
    decreases es, 0
  {
    if es != [] {
      IsSearchesTree(es[0], target);
      IsAnySearchesTrees(es[1..], target);
      MentionsConcat(PreOrder(es[0]), PreOrderAll(es[1..]), target);
    }
  }

  /** `errors.As` stops at the first `net.Error` in pre-order, whatever it answers. */
  lemma {:induction false} AsFindsFirst(e: Error)
    ensures FirstAnswer(PreOrder(e), AsNetError(e))
    decreases e, 1
  {
    AsAnyFindsFirst(e.unwrap);
    assert FirstAnswer([e], e.timeout) by {
      if e.timeout.Some? { assert FirstNetError([e], 0); }
    }
    FirstAnswerConcat([e], PreOrderAll(e.unwrap), e.timeout, AsNetErrorAny(e.unwrap));
  }

  lemma {:induction false} AsAnyFindsFirst(es: seq<Error>)
    ensures FirstAnswer(PreOrderAll(es), AsNetErrorAny(es))
    decreases es, 0
  {
    if es != [] {
      AsFindsFirst(es[0]);
      AsAnyFindsFirst(es[1..]);
      FirstAnswerConcat(PreOrder(es[0]), PreOrderAll(es[1..]), AsNetError(es[0]), AsNetErrorAny(es[1..]));
    }
  }

  lemma FirstAnswerUnique(list: seq<Error>, x: Option<bool>, y: Option<bool>)
    requires FirstAnswer(list, x) && FirstAnswer(list, y)
    ensures x == y
  {
    if x.Some? && y.Some? {
      var i :| FirstNetError(list, i) && list[i].timeout == x;
      var j :| FirstNetError(list, j) && list[j].timeout == y;
      assert i == j;
    }
  }

  /** Wrapping changes neither search, except for the wrapper's own (fresh) identity. */
  lemma WrapIsTransparent(cause: Error, target: Identity)
    requires target != Other(0)
    ensures Is(Wrap(cause), target) <==> Is(cause, target)
    ensures AsNetError(Wrap(cause)) == AsNetError(cause)
  {
    var w := Wrap(cause);
    assert w.unwrap[1..] == [];
    assert IsAny(w.unwrap, target) <==> Is(cause, target) || IsAny(w.unwrap[1..], target);
    assert AsNetErrorAny(w.unwrap[1..]) == None;
  }
}
