/** Error trees and their classification (internal/errors/classification.go). */
module Errors {
  import opened Common

  /** Go errors as errors.As sees them: wrapping one cause, joining several, or neither. */
  datatype Err =
    | Plain(msg: string)
    | Wrap(msg: string, cause: Err)
    | Join(errs: seq<Err>)
    | Retryable(reason: string, cause: Err)

  /** The depth-first search of errors.As for a RetryableError. */
  predicate Search(e: Err) {
    match e
    case Plain(_) => false
    case Wrap(_, cause) => Search(cause)
    case Join(errs) => SearchAll(errs)
    case Retryable(_, _) => true
  }

  predicate SearchAll(errs: seq<Err>) {
    errs != [] && (Search(errs[0]) || SearchAll(errs[1..]))
  }

  predicate IsRetryable(e: Option<Err>) { e.Some? && Search(e.value) }

  /** The error reached from `e` by choosing a child at every step. */
  function At(e: Err, path: seq<nat>): Option<Err>
    decreases |path|
  {
    if path == [] then Some(e)
    else match e
      case Plain(_) => None
      case Wrap(_, cause) => At(cause, path[1..])
      case Join(errs) => if path[0] < |errs| then At(errs[path[0]], path[1..]) else None
      case Retryable(_, cause) => At(cause, path[1..])
  }

  ghost predicate Holds(e: Err, path: seq<nat>) { At(e, path).Some? && At(e, path).value.Retryable? }

  lemma {:induction false} SearchAllIff(errs: seq<Err>)
    ensures SearchAll(errs) <==> exists e :: e in errs && Search(e)
  {
    if errs != [] {
      SearchAllIff(errs[1..]);
      assert errs[0] in errs;
      assert forall e :: e in errs <==> e == errs[0] || e in errs[1..];
    }
  }

  lemma {:induction false} SearchFinds(e: Err) returns (path: seq<nat>)
    requires Search(e)
    ensures Holds(e, path)
  {
    match e
    case Wrap(_, cause) =>
      var rest := SearchFinds(cause);
      path := [0] + rest;
      assert path[1..] == rest;
    case Join(errs) =>
      SearchAllIff(errs);
      var i :| 0 <= i < |errs| && Search(errs[i]);
      var rest := SearchFinds(errs[i]);
      path := [i] + rest;
      assert path[1..] == rest;
    case Retryable(_, _) =>
      path := [];
  }

  lemma {:induction false} HeldIsFound(e: Err, path: seq<nat>)
    requires Holds(e, path)
    ensures Search(e)
    decreases |path|
  {
    if path != [] {
      match e
      case Wrap(_, cause) => HeldIsFound(cause, path[1..]);
      case Join(errs) =>
        HeldIsFound(errs[path[0]], path[1..]);
        assert errs[path[0]] in errs;
        SearchAllIff(errs);
      case Retryable(_, _) =>
    }
  }

  /** An error is retryable exactly when a RetryableError stands anywhere in its tree. */
  lemma IsRetryableIff(e: Err)
    ensures IsRetryable(Some(e)) <==> exists path :: Holds(e, path)
  {
    if Search(e) {
      var path := SearchFinds(e);
    }
    if path :| Holds(e, path) {
      HeldIsFound(e, path);
    }
  }
}
