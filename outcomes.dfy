/**
 * Values that stand for Python's `None` and for a raised exception.
 */
module Outcomes {

  datatype Option<T> = None | Some(value: T)

  /** The value a Python call returns, or the exception it raises. */
  datatype Result<T, E> = Ok(value: T) | Err(error: E)

  /**
   * Applies `f` to each element in order and stops at the first failure:
   * what `map(f, xs)` does in Python 2, where the list is built eagerly and
   * the first exception propagates.
   */
  function MapAll<T, U, E(==)>(xs: seq<T>, f: T -> Result<U, E>): Result<seq<U>, E>
    decreases |xs|
  {
    if xs == [] then Ok([])
    else
      match MapAll(xs[..|xs| - 1], f)
      case Err(e) => Err(e)
      case Ok(us) =>
        match f(xs[|xs| - 1])
        case Err(e) => Err(e)
        case Ok(u) => Ok(us + [u])
  }

  /**
   * `MapAll` succeeds exactly when `f` succeeds on every element, and then
   * gives the images in order; otherwise it reports the failure of the first
   * element `f` fails on.
   */
  lemma {:induction false} MapAllMeaning<T, U, E>(xs: seq<T>, f: T -> Result<U, E>)
    ensures MapAll(xs, f).Ok? <==> forall i :: 0 <= i < |xs| ==> f(xs[i]).Ok?
    ensures MapAll(xs, f).Ok? ==>
              |MapAll(xs, f).value| == |xs| &&
              forall i :: 0 <= i < |xs| ==> MapAll(xs, f).value[i] == f(xs[i]).value
    ensures MapAll(xs, f).Err? ==>
              exists i :: 0 <= i < |xs| && f(xs[i]).Err? && f(xs[i]).error == MapAll(xs, f).error &&
                          forall j :: 0 <= j < i ==> f(xs[j]).Ok?
    decreases |xs|
  {
    if xs != [] {
      var init := xs[..|xs| - 1];
      MapAllMeaning(init, f);
      assert forall i :: 0 <= i < |init| ==> init[i] == xs[i];
    }
  }

  /** Appending one element to the input appends its image, or stops at its failure. */
  lemma MapAllSnoc<T, U, E>(xs: seq<T>, x: T, f: T -> Result<U, E>)
    ensures MapAll(xs + [x], f) ==
              match MapAll(xs, f)
              case Err(e) => Err(e)
              case Ok(us) => (match f(x) case Err(e) => Err(e) case Ok(u) => Ok(us + [u]))
  {
    assert (xs + [x])[..|xs + [x]| - 1] == xs;
  }

  /** Two elements that both succeed. */
  lemma MapAllPair<T, U, E>(x: T, y: T, f: T -> Result<U, E>)
    requires f(x).Ok? && f(y).Ok?
    ensures MapAll([x, y], f) == Ok([f(x).value, f(y).value])
  {
    assert [x, y][..1] == [x] && [x][..0] == [];
    var none: seq<U> := [];
    assert MapAll([x], f) == Ok(none + [f(x).value]);
    assert none + [f(x).value] == [f(x).value];
    assert MapAll([x, y], f) == Ok([f(x).value] + [f(y).value]);
    assert [f(x).value] + [f(y).value] == [f(x).value, f(y).value];
  }

  /** The error `MapAll` reports is that of the first element `f` fails on. */
  lemma MapAllFirstError<T, U, E>(xs: seq<T>, f: T -> Result<U, E>, i: nat)
    requires i < |xs| && f(xs[i]).Err?
    requires forall j :: 0 <= j < i ==> f(xs[j]).Ok?
    ensures MapAll(xs, f) == Err(f(xs[i]).error)
  {
    MapAllMeaning(xs, f);
  }

  /** A loop over `xs` that has succeeded on its first `i` elements goes on when `f` succeeds on the next. */
  lemma MapAllPrefixOk<T, U, E>(xs: seq<T>, f: T -> Result<U, E>, i: nat, done: seq<U>)
    requires i < |xs| && MapAll(xs[..i], f) == Ok(done) && f(xs[i]).Ok?
    ensures MapAll(xs[..i + 1], f) == Ok(done + [f(xs[i]).value])
  {
    assert xs[..i + 1][..i] == xs[..i];
  }

  /** A loop over `xs` that has succeeded on its first `i` elements stops with the next element's error. */
  lemma MapAllPrefixErr<T, U, E>(xs: seq<T>, f: T -> Result<U, E>, i: nat)
    requires i < |xs| && MapAll(xs[..i], f).Ok? && f(xs[i]).Err?
    ensures MapAll(xs, f) == Err(f(xs[i]).error)
  {
    MapAllMeaning(xs[..i], f);
    assert forall j :: 0 <= j < i ==> xs[..i][j] == xs[j];
    MapAllFirstError(xs, f, i);
  }
}
