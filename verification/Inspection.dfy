/** Results gathered from all targets at once: Results.Any and Results.All of
    pkg/api/inspection.go, and IsNotFound of pkg/api/kubernetes.go. */
module Inspection {
  import opened Wrappers

  /** An error: a plain one (`notFound` when the API or the discovery cache says so),
      one that wraps another, or several joined. */
  datatype Error = Plain(notFound: bool) | Wrapped(cause: Error) | Joined(causes: seq<Error>)

  // -------------------------------------------------------------------- not found

  predicate IsNotFound(e: Error) {
    match e
    case Plain(notFound) => notFound
    case Wrapped(cause) => IsNotFound(cause)
    case Joined(causes) => causes != [] && forall i :: 0 <= i < |causes| ==> IsNotFound(causes[i])
  }

  /** The plain errors of a tree; a join of nothing counts as an unknown error. */
  function Leaves(e: Error): (r: seq<bool>)
    decreases e, 0
  {
    match e
    case Plain(notFound) => [notFound]
    case Wrapped(cause) => Leaves(cause)
    case Joined(causes) => if causes == [] then [false] else AllLeaves(causes)
  }

  function AllLeaves(es: seq<Error>): seq<bool>
    decreases es, 0
  {
    if es == [] then [] else Leaves(es[0]) + AllLeaves(es[1..])
  }

  ghost predicate AllTrue(s: seq<bool>) {
    forall i :: 0 <= i < |s| ==> s[i]
  }

  lemma AllTrueAppend(a: seq<bool>, b: seq<bool>)
    ensures AllTrue(a + b) <==> AllTrue(a) && AllTrue(b)
  {
    assert forall i :: 0 <= i < |a| ==> (a + b)[i] == a[i];
    assert forall i :: 0 <= i < |b| ==> (a + b)[|a| + i] == b[i];
  }

  /** An error is not-found exactly when all leaves of its tree are. */
  lemma {:induction false} NotFoundIsAllLeaves(e: Error)
    ensures IsNotFound(e) <==> AllTrue(Leaves(e))
    ensures e == Joined([]) ==> !IsNotFound(e)
    decreases e, 0
  {
    match e
    case Plain(notFound) =>
      assert Leaves(e)[0] == notFound;
    case Wrapped(cause) =>
      NotFoundIsAllLeaves(cause);
      assert Leaves(e) == Leaves(cause);
    case Joined(causes) =>
      if causes == [] {
        assert !Leaves(e)[0];
      } else {
        NotFoundsAreAllLeaves(causes);
      }
  }

  lemma {:induction false} NotFoundsAreAllLeaves(es: seq<Error>)
    ensures (forall i :: 0 <= i < |es| ==> IsNotFound(es[i])) <==> AllTrue(AllLeaves(es))
    decreases es, 0
  {
    if es != [] {
      NotFoundIsAllLeaves(es[0]);
      NotFoundsAreAllLeaves(es[1..]);
      AllTrueAppend(Leaves(es[0]), AllLeaves(es[1..]));
      assert forall i :: 0 < i < |es| ==> es[i] == es[1..][i - 1];
      assert forall i :: 0 <= i < |es| - 1 ==> es[1..][i] == es[i + 1];
    }
  }

  // ------------------------------------------------------------------- aggregation

  /** What one target gave. */
  datatype Answer<T> = Value(value: T) | Failed(error: Error)

  function JoinError(so: Option<Error>, e: Error): Option<Error> {
    Some(Joined((if so.Some? then [so.value] else []) + [e]))
  }

  /** What Any may say to answers: nothing in it depends on their order. */
  ghost predicate SaysAny<T>(answers: seq<Answer<T>>, matches: T -> bool, found: bool, err: Option<Error>) {
    && (found <==> exists i :: 0 <= i < |answers| && answers[i].Value? && matches(answers[i].value))
    && (err.Some? <==> !found && exists i :: 0 <= i < |answers| && answers[i].Failed?)
    && (err.Some? ==> (IsNotFound(err.value) <==> AllNotFound(answers)))
  }

  /** True as soon as an answer matches, else false with the errors joined. */
  method Any<T>(answers: seq<Answer<T>>, matches: T -> bool) returns (found: bool, err: Option<Error>)
    ensures SaysAny(answers, matches, found, err)
  {
    err := None;
    for i := 0 to |answers|
      invariant forall k :: 0 <= k < i && answers[k].Value? ==> !matches(answers[k].value)
      invariant err.Some? <==> exists k :: 0 <= k < i && answers[k].Failed?
      invariant err.Some? ==> (IsNotFound(err.value) <==> AllNotFound(answers[..i]))
    {
      match answers[i]
      case Failed(e) =>
        NotFoundGrows(err, e, answers[..i]);
        assert answers[..i + 1] == answers[..i] + [answers[i]];
        err := JoinError(err, e);
      case Value(v) =>
        assert AllNotFound(answers[..i + 1]) <==> AllNotFound(answers[..i]) by {
          assert answers[..i + 1] == answers[..i] + [answers[i]];
          AllNotFoundSnoc(answers[..i], answers[i]);
        }
        if matches(v) {
          return true, None;
        }
    }
    assert answers[..|answers|] == answers;
    return false, err;
  }

  /** What All may say to answers. */
  ghost predicate SaysAll<T>(answers: seq<Answer<T>>, matches: T -> bool, all: bool, err: Option<Error>) {
    && (all <==> forall i :: 0 <= i < |answers| ==> answers[i].Value? && matches(answers[i].value))
    && (err.Some? <==> (exists i :: 0 <= i < |answers| && answers[i].Failed?)
                       && forall i :: 0 <= i < |answers| && answers[i].Value? ==> matches(answers[i].value))
    && (err.Some? ==> (IsNotFound(err.value) <==> AllNotFound(answers)))
  }

  /** False as soon as an answer does not match, else whether there was no error. */
  method All<T>(answers: seq<Answer<T>>, matches: T -> bool) returns (all: bool, err: Option<Error>)
    ensures SaysAll(answers, matches, all, err)
  {
    err := None;
    for i := 0 to |answers|
      invariant forall k :: 0 <= k < i && answers[k].Value? ==> matches(answers[k].value)
      invariant err.Some? <==> exists k :: 0 <= k < i && answers[k].Failed?
      invariant err.Some? ==> (IsNotFound(err.value) <==> AllNotFound(answers[..i]))
    {
      assert answers[..i + 1] == answers[..i] + [answers[i]];
      AllNotFoundSnoc(answers[..i], answers[i]);
      match answers[i]
      case Failed(e) =>
        NotFoundGrows(err, e, answers[..i]);
        err := JoinError(err, e);
      case Value(v) =>
        if !matches(v) {
          return false, None;
        }
    }
    assert answers[..|answers|] == answers;
    return err.None?, err;
  }

  /** Every failed target failed with not-found. */
  ghost predicate AllNotFound<T>(answers: seq<Answer<T>>) {
    forall i :: 0 <= i < |answers| && answers[i].Failed? ==> IsNotFound(answers[i].error)
  }

  lemma AllNotFoundSnoc<T>(answers: seq<Answer<T>>, answer: Answer<T>)
    ensures AllNotFound(answers + [answer]) <==> AllNotFound(answers) && (answer.Failed? ==> IsNotFound(answer.error))
  {
    var more := answers + [answer];
    assert more[|answers|] == answer && forall i :: 0 <= i < |answers| ==> more[i] == answers[i];
  }

  lemma NotFoundGrows<T>(so: Option<Error>, e: Error, answers: seq<Answer<T>>)
    requires so.Some? ==> (IsNotFound(so.value) <==> AllNotFound(answers))
    requires so.None? ==> AllNotFound(answers)
    ensures IsNotFound(JoinError(so, e).value) <==> AllNotFound(answers + [Failed(e)])
  {
    AllNotFoundSnoc(answers, Failed(e));
    var causes := JoinError(so, e).value.causes;
    assert causes[|causes| - 1] == e && (so.Some? ==> causes[0] == so.value);
  }

  /** Whether any target exposes the kind; targets that cannot be obtained or asked
      count as exposing it, unless what failed is not found. */
  method AnyTargetHasGVK(targets: Answer<seq<Answer<seq<string>>>>, kind: string) returns (has: bool)
    ensures targets.Value? ==> (!has <==>
      forall i :: 0 <= i < |targets.value| ==>
        match targets.value[i]
        case Value(kinds) => kind !in kinds
        case Failed(e) => IsNotFound(e))
    ensures targets.Failed? ==> (!has <==> IsNotFound(targets.error))
  {
    if targets.Failed? {
      var err := Wrapped(targets.error);
      return !IsNotFound(err);
    }
    var found, err := Any(targets.value, (kinds: seq<string>) => kind in kinds);
    return found || (err.Some? && !IsNotFound(err.value));
  }

  // ----------------------------------------------------------------- arrival order

  /** Whatever the order in which the targets answer, Any says the same: the same
      boolean, an error or none, and of the same kind. */
  lemma AnyIgnoresArrivalOrder<T>(answers: seq<Answer<T>>, arrived: seq<Answer<T>>, matches: T -> bool,
                                  found: bool, err: Option<Error>, foundLater: bool, errLater: Option<Error>)
    requires multiset(answers) == multiset(arrived)
    requires SaysAny(answers, matches, found, err) && SaysAny(arrived, matches, foundLater, errLater)
    ensures found == foundLater && err.Some? == errLater.Some?
    ensures err.Some? ==> IsNotFound(err.value) == IsNotFound(errLater.value)
  {
    SameMembers(answers, arrived);
    SameMembers(arrived, answers);
  }

  lemma AllIgnoresArrivalOrder<T>(answers: seq<Answer<T>>, arrived: seq<Answer<T>>, matches: T -> bool,
                                  all: bool, err: Option<Error>, allLater: bool, errLater: Option<Error>)
    requires multiset(answers) == multiset(arrived)
    requires SaysAll(answers, matches, all, err) && SaysAll(arrived, matches, allLater, errLater)
    ensures all == allLater && err.Some? == errLater.Some?
    ensures err.Some? ==> IsNotFound(err.value) == IsNotFound(errLater.value)
  {
    SameMembers(answers, arrived);
    SameMembers(arrived, answers);
  }

  lemma SameMembers<T>(a: seq<T>, b: seq<T>)
    requires multiset(a) == multiset(b)
    ensures forall i :: 0 <= i < |a| ==> exists j :: 0 <= j < |b| && b[j] == a[i]
  {
    forall i | 0 <= i < |a| ensures exists j :: 0 <= j < |b| && b[j] == a[i] {
      assert a[i] in multiset(a);
      assert a[i] in multiset(b);
    }
  }
}
